/** JSON texts (section 2 of RFC 8259) as lossless syntax trees: unparsing gives the text back with its
    whitespace and escapes, and the parser is proved sound and complete against unparsing. */
module JsonSyntax {
  import opened Hex

  /** raw is the text of a string literal between its quotes. */
  datatype Value =
    | Word(word: string)
    | Num(digits: string)
    | Text(raw: string)
    | EmptyArr(gap: string)
    | Arr(items: Items)
    | EmptyObj(gap: string)
    | Obj(members: Members)

  datatype Items =
    | LastItem(before: string, value: Value, after: string)
    | MoreItems(before: string, value: Value, after: string, rest: Items)

  datatype Members =
    | LastMember(key: Key, value: Value, after: string)
    | MoreMembers(key: Key, value: Value, after: string, rest: Members)

  /** A member's name, with the whitespace around it and around its colon. */
  datatype Key = Key(before: string, raw: string, colon: string, gap: string)

  datatype Parsed<+T> = Ok(value: T, rest: string) | Fail

  // ----- unparsing -----

  function Unparse(v: Value): string {
    match v
    case Word(w) => w
    case Num(d) => d
    case Text(raw) => Quoted(raw)
    case EmptyArr(gap) => "[" + (gap + "]")
    case Arr(items) => "[" + UnparseItems(items)
    case EmptyObj(gap) => "{" + (gap + "}")
    case Obj(members) => "{" + UnparseMembers(members)
  }

  function Quoted(raw: string): string {
    "\"" + (raw + "\"")
  }

  function UnparseItems(items: Items): string {
    items.before + (Unparse(items.value)
                    + (items.after + if items.LastItem? then "]" else "," + UnparseItems(items.rest)))
  }

  function UnparseKey(k: Key): string {
    k.before + (Quoted(k.raw) + (k.colon + (":" + k.gap)))
  }

  function UnparseMembers(ms: Members): string {
    UnparseKey(ms.key) + (Unparse(ms.value)
                          + (ms.after + if ms.LastMember? then "}" else "," + UnparseMembers(ms.rest)))
  }

  // ----- lexical parts -----

  predicate IsBlank(c: char) {
    c == ' ' || c == '\t' || c == '\n' || c == '\r'
  }

  /** The leading whitespace of s. */
  function Blank(s: string): (w: string)
    ensures w <= s
  {
    if s != "" && IsBlank(s[0]) then [s[0]] + Blank(s[1..]) else ""
  }

  predicate AllBlank(s: string) {
    forall i :: 0 <= i < |s| ==> IsBlank(s[i])
  }

  predicate IsDigit(c: char) {
    '0' <= c <= '9'
  }

  predicate NumChar(c: char) {
    IsDigit(c) || c == '-' || c == '+' || c == '.' || c == 'e' || c == 'E'
  }

  /** The longest prefix of characters that can occur in a number. */
  function Munch(s: string): (w: string)
    ensures w <= s
  {
    if s != "" && NumChar(s[0]) then [s[0]] + Munch(s[1..]) else ""
  }

  function DropDigits(s: string): string {
    if s != "" && IsDigit(s[0]) then DropDigits(s[1..]) else s
  }

  predicate IsExponent(s: string) {
    s == ""
    || ((s[0] == 'e' || s[0] == 'E')
        && (var t := if |s| > 1 && (s[1] == '+' || s[1] == '-') then s[2..] else s[1..];
            t != "" && DropDigits(t) == ""))
  }

  predicate IsFraction(s: string) {
    if s != "" && s[0] == '.' then |s| > 1 && IsDigit(s[1]) && IsExponent(DropDigits(s[1..]))
    else IsExponent(s)
  }

  /** Section 6 of RFC 8259: minus, integer without leading zeros, fraction, exponent. */
  predicate IsNumber(s: string) {
    var u := if s != "" && s[0] == '-' then s[1..] else s;
    u != "" && IsDigit(u[0]) && IsFraction(if u[0] == '0' then u[1..] else DropDigits(u))
  }

  /** The length of the character or escape that s starts with; 0 for none (a quote, a control
      character, a broken escape, the end). */
  function Unit(s: string): (n: nat)
    ensures n <= |s|
  {
    if s == "" || s[0] == '"' || s[0] < ' ' then 0
    else if s[0] != '\\' then 1
    else if |s| >= 2 && s[1] in "bfnrt/\\\"" then 2
    else if |s| >= 6 && s[1] == 'u' && IsHex(s[2]) && IsHex(s[3]) && IsHex(s[4]) && IsHex(s[5]) then 6
    else 0
  }

  predicate ValidRaw(raw: string) {
    raw == "" || (Unit(raw) > 0 && ValidRaw(raw[Unit(raw)..]))
  }

  /** The rest of a string literal, after its opening quote. */
  function ScanRaw(s: string): (p: Parsed<string>)
    ensures p.Ok? ==> |p.rest| < |s|
  {
    if s != "" && s[0] == '"' then Ok("", s[1..])
    else if Unit(s) == 0 then Fail
    else
      match ScanRaw(s[Unit(s)..])
      case Fail => Fail
      case Ok(raw, rest) => Ok(s[..Unit(s)] + raw, rest)
  }

  predicate IsWord(w: string) {
    w == "true" || w == "false" || w == "null"
  }

  predicate Valid(v: Value) {
    match v
    case Word(w) => IsWord(w)
    case Num(d) => IsNumber(d) && Munch(d) == d
    case Text(raw) => ValidRaw(raw)
    case EmptyArr(gap) => AllBlank(gap)
    case Arr(items) => ValidItems(items)
    case EmptyObj(gap) => AllBlank(gap)
    case Obj(members) => ValidMembers(members)
  }

  predicate ValidItems(items: Items) {
    && AllBlank(items.before) && Valid(items.value) && AllBlank(items.after)
    && (items.MoreItems? ==> ValidItems(items.rest))
  }

  predicate ValidKey(k: Key) {
    AllBlank(k.before) && ValidRaw(k.raw) && AllBlank(k.colon) && AllBlank(k.gap)
  }

  predicate ValidMembers(ms: Members) {
    && ValidKey(ms.key) && Valid(ms.value) && AllBlank(ms.after)
    && (ms.MoreMembers? ==> ValidMembers(ms.rest))
  }

  // ----- parsing -----

  function ParseWord(s: string): (p: Parsed<Value>)
    ensures p.Ok? ==> |p.rest| < |s|
  {
    if "true" <= s then Ok(Word("true"), s[4..])
    else if "false" <= s then Ok(Word("false"), s[5..])
    else if "null" <= s then Ok(Word("null"), s[4..])
    else Fail
  }

  function ParseNum(s: string): (p: Parsed<Value>)
    ensures p.Ok? ==> |p.rest| < |s|
  {
    var d := Munch(s);
    if IsNumber(d) then Ok(Num(d), s[|d|..]) else Fail
  }

  function ParseString(s: string): (p: Parsed<Value>)
    requires s != ""
    ensures p.Ok? ==> |p.rest| < |s|
  {
    match ScanRaw(s[1..])
    case Fail => Fail
    case Ok(raw, rest) => Ok(Text(raw), rest)
  }

  /** One value, at the very start of s. */
  function ParseValue(s: string): (p: Parsed<Value>)
    ensures p.Ok? ==> |p.rest| < |s|
    decreases |s|, 0
  {
    if s == "" then Fail
    else if s[0] == '"' then ParseString(s)
    else if s[0] == '[' then ParseArray(s[1..])
    else if s[0] == '{' then ParseObject(s[1..])
    else if NumChar(s[0]) then ParseNum(s)
    else ParseWord(s)
  }

  /** An array, after its opening bracket. */
  function ParseArray(s: string): (p: Parsed<Value>)
    ensures p.Ok? ==> |p.rest| < |s|
    decreases |s|, 2
  {
    var gap := Blank(s);
    if |gap| < |s| && s[|gap|] == ']' then Ok(EmptyArr(gap), s[|gap| + 1..])
    else
      match ParseItems(s)
      case Fail => Fail
      case Ok(items, rest) => Ok(Arr(items), rest)
  }

  /** Array elements up to and including the closing bracket. */
  function ParseItems(s: string): (p: Parsed<Items>)
    ensures p.Ok? ==> |p.rest| < |s|
    decreases |s|, 1
  {
    var before := Blank(s);
    match ParseValue(s[|before|..])
    case Fail => Fail
    case Ok(v, r) =>
      var after := Blank(r);
      var t := r[|after|..];
      if t == "" then Fail
      else if t[0] == ']' then Ok(LastItem(before, v, after), t[1..])
      else if t[0] != ',' then Fail
      else
        match ParseItems(t[1..])
        case Fail => Fail
        case Ok(rest, u) => Ok(MoreItems(before, v, after, rest), u)
  }

  /** An object, after its opening brace. */
  function ParseObject(s: string): (p: Parsed<Value>)
    ensures p.Ok? ==> |p.rest| < |s|
    decreases |s|, 2
  {
    var gap := Blank(s);
    if |gap| < |s| && s[|gap|] == '}' then Ok(EmptyObj(gap), s[|gap| + 1..])
    else
      match ParseMembers(s)
      case Fail => Fail
      case Ok(members, rest) => Ok(Obj(members), rest)
  }

  /** A member's name, its colon, and the whitespace up to its value. */
  function ParseKey(s: string): (p: Parsed<Key>)
    ensures p.Ok? ==> |p.rest| < |s|
  {
    var before := Blank(s);
    var t := s[|before|..];
    if t == "" || t[0] != '"' then Fail
    else
      match ScanRaw(t[1..])
      case Fail => Fail
      case Ok(raw, r) =>
        var colon := Blank(r);
        var u := r[|colon|..];
        if u == "" || u[0] != ':' then Fail
        else
          var gap := Blank(u[1..]);
          Ok(Key(before, raw, colon, gap), u[1..][|gap|..])
  }

  /** Object members up to and including the closing brace. */
  function ParseMembers(s: string): (p: Parsed<Members>)
    ensures p.Ok? ==> |p.rest| < |s|
    decreases |s|, 1
  {
    match ParseKey(s)
    case Fail => Fail
    case Ok(key, q) =>
      match ParseValue(q)
      case Fail => Fail
      case Ok(v, r) =>
        var after := Blank(r);
        var t := r[|after|..];
        if t == "" then Fail
        else if t[0] == '}' then Ok(LastMember(key, v, after), t[1..])
        else if t[0] != ',' then Fail
        else
          match ParseMembers(t[1..])
          case Fail => Fail
          case Ok(rest, u) => Ok(MoreMembers(key, v, after, rest), u)
  }

  /** A whole text: one value with whitespace around it. */
  function ParseText(s: string): (p: Parsed<Value>)
    ensures p.Ok? ==> p.rest == ""
  {
    match ParseValue(s[|Blank(s)|..])
    case Fail => Fail
    case Ok(v, r) => if Blank(r) == r then Ok(v, "") else Fail
  }

  lemma Glue(a: string, b: string, c: string, d: string, u: string)
    ensures a + (b + (c + (d + u))) == (a + (b + (c + d))) + u
  {
    assert c + (d + u) == (c + d) + u;
    assert b + ((c + d) + u) == (b + (c + d)) + u;
  }

  // ----- soundness: what was parsed is what was there -----

  lemma {:induction false} BlankSound(s: string)
    ensures AllBlank(Blank(s)) && s == Blank(s) + s[|Blank(s)|..]
    ensures s[|Blank(s)|..] != "" ==> !IsBlank(s[|Blank(s)|])
  {
    if s != "" && IsBlank(s[0]) {
      BlankSound(s[1..]);
    }
  }

  lemma {:induction false} MunchSound(s: string)
    ensures Munch(Munch(s)) == Munch(s) && s == Munch(s) + s[|Munch(s)|..]
  {
    if s != "" && NumChar(s[0]) {
      MunchSound(s[1..]);
      assert Munch(s)[1..] == Munch(s[1..]);
    }
  }

  lemma {:induction false} ScanSound(s: string)
    requires ScanRaw(s).Ok?
    ensures ValidRaw(ScanRaw(s).value) && s == ScanRaw(s).value + "\"" + ScanRaw(s).rest
  {
    if s != "" && s[0] == '"' {
      assert s == "" + "\"" + s[1..];
    } else {
      ScanSound(s[Unit(s)..]);
      var p := ScanRaw(s[Unit(s)..]);
      ValidStep(s, p.value);
      Rejoin(s, Unit(s), p.value, p.rest);
    }
  }

  lemma ValidStep(s: string, raw: string)
    requires Unit(s) > 0 && ValidRaw(raw)
    ensures ValidRaw(s[..Unit(s)] + raw)
  {
    UnitOf(s, Unit(s), raw);
    assert (s[..Unit(s)] + raw)[Unit(s)..] == raw;
  }

  lemma Rejoin(s: string, n: nat, raw: string, rest: string)
    requires n <= |s| && s[n..] == raw + "\"" + rest
    ensures s == (s[..n] + raw) + "\"" + rest
  {
    assert s == s[..n] + s[n..];
  }

  lemma UnitOf(s: string, n: nat, t: string)
    requires n == Unit(s) > 0
    ensures Unit(s[..n] + t) == n
  {
  }

  lemma WordSound(s: string)
    requires ParseWord(s).Ok?
    ensures Valid(ParseWord(s).value) && s == Unparse(ParseWord(s).value) + ParseWord(s).rest
  {
  }

  lemma StringSound(s: string)
    requires s != "" && s[0] == '"' && ParseString(s).Ok?
    ensures Valid(ParseString(s).value) && s == Unparse(ParseString(s).value) + ParseString(s).rest
  {
    var raw, r := ScanRaw(s[1..]).value, ScanRaw(s[1..]).rest;
    LiteralSound(s, raw, r);
    assert Quoted(raw) + r == "\"" + (raw + "\"" + r);
  }

  /** Putting an opening bracket back. */
  lemma Opened(s: string, v: Value, r: string)
    requires s != "" && Unparse(v) != "" && s[0] == Unparse(v)[0] && s[1..] == Unparse(v)[1..] + r
    ensures s == Unparse(v) + r
  {
    assert s == [s[0]] + s[1..];
    assert Unparse(v) == [s[0]] + Unparse(v)[1..];
  }

  lemma {:induction false} ValueSound(s: string)
    requires ParseValue(s).Ok?
    ensures Valid(ParseValue(s).value) && s == Unparse(ParseValue(s).value) + ParseValue(s).rest
    decreases |s|, 0
  {
    if s[0] == '"' {
      StringSound(s);
    } else if s[0] == '[' {
      ArraySound(s[1..]);
      Opened(s, ParseArray(s[1..]).value, ParseArray(s[1..]).rest);
    } else if s[0] == '{' {
      ObjectSound(s[1..]);
      Opened(s, ParseObject(s[1..]).value, ParseObject(s[1..]).rest);
    } else if NumChar(s[0]) {
      MunchSound(s);
    } else {
      WordSound(s);
    }
  }

  lemma {:induction false} ArraySound(s: string)
    requires ParseArray(s).Ok?
    ensures var p := ParseArray(s);
            (p.value.Arr? || p.value.EmptyArr?) && Valid(p.value) && s == Unparse(p.value)[1..] + p.rest
    decreases |s|, 2
  {
    var gap := Blank(s);
    if |gap| < |s| && s[|gap|] == ']' {
      EmptySound(s, ']');
    } else {
      ItemsSound(s, ParseItems(s).value, ParseItems(s).rest);
      assert ParseArray(s).value == Arr(ParseItems(s).value);
    }
  }

  /** An empty array or object, after its opening bracket. */
  lemma EmptySound(s: string, close: char)
    requires |Blank(s)| < |s| && s[|Blank(s)|] == close
    ensures AllBlank(Blank(s)) && s == Blank(s) + [close] + s[|Blank(s)| + 1..]
  {
    BlankSound(s);
  }

  /** What ParseItems found where. */
  lemma ItemsShape(s: string, items: Items, u: string) returns (q: string, r: string, t: string)
    requires ParseItems(s) == Ok(items, u)
    ensures items.before == Blank(s) && q == s[|items.before|..] && ParseValue(q) == Ok(items.value, r)
    ensures items.after == Blank(r) && t == r[|items.after|..] && t != "" && |t| < |s|
    ensures if items.LastItem? then t[0] == ']' && u == t[1..] else t[0] == ',' && ParseItems(t[1..]) == Ok(items.rest, u)
  {
    q := s[|Blank(s)|..];
    r := ParseValue(q).rest;
    t := r[|Blank(r)|..];
  }

  lemma ItemsTail(t: string, items: Items, u: string)
    requires t != ""
    requires if items.LastItem? then t[0] == ']' && u == t[1..] else t[0] == ',' && t[1..] == UnparseItems(items.rest) + u
    ensures t == (if items.LastItem? then "]" else "," + UnparseItems(items.rest)) + u
  {
    assert t == [t[0]] + t[1..];
  }

  lemma ItemsGlue(s: string, q: string, r: string, t: string, items: Items, u: string)
    requires s == items.before + q && q == Unparse(items.value) + r && r == items.after + t
    requires t == (if items.LastItem? then "]" else "," + UnparseItems(items.rest)) + u
    ensures s == UnparseItems(items) + u
  {
    Glue(items.before, Unparse(items.value), items.after, if items.LastItem? then "]" else "," + UnparseItems(items.rest), u);
  }

  lemma {:induction false} ItemsHeadSound(s: string, q: string, r: string, items: Items)
    requires items.before == Blank(s) && q == s[|items.before|..]
    requires ParseValue(q) == Ok(items.value, r) && items.after == Blank(r)
    ensures AllBlank(items.before) && Valid(items.value) && AllBlank(items.after)
    ensures s == items.before + q && q == Unparse(items.value) + r && r == items.after + r[|items.after|..]
    decreases |s|, 1, 0
  {
    BlankSound(s);
    ValueSound(q);
    BlankSound(r);
  }

  lemma {:induction false} ItemsSound(s: string, items: Items, u: string)
    requires ParseItems(s) == Ok(items, u)
    ensures ValidItems(items) && s == UnparseItems(items) + u
    decreases |s|, 1
  {
    var q, r, t := ItemsShape(s, items, u);
    if items.MoreItems? {
      ItemsSound(t[1..], items.rest, u);
    }
    ItemsTail(t, items, u);
    ItemsHeadSound(s, q, r, items);
    ItemsGlue(s, q, r, t, items, u);
  }

  lemma {:induction false} ObjectSound(s: string)
    requires ParseObject(s).Ok?
    ensures var p := ParseObject(s);
            (p.value.Obj? || p.value.EmptyObj?) && Valid(p.value) && s == Unparse(p.value)[1..] + p.rest
    decreases |s|, 2
  {
    var gap := Blank(s);
    if |gap| < |s| && s[|gap|] == '}' {
      EmptySound(s, '}');
    } else {
      MembersSound(s, ParseMembers(s).value, ParseMembers(s).rest);
      assert ParseObject(s).value == Obj(ParseMembers(s).value);
    }
  }

  lemma KeyGlue(s: string, before: string, t: string, raw: string, r: string, colon: string, u: string, gap: string, q: string)
    requires s == before + t && t == "\"" + (raw + "\"" + r) && r == colon + u && u == ":" + (gap + q)
    ensures s == UnparseKey(Key(before, raw, colon, gap)) + q
  {
    assert t == Quoted(raw) + r;
    assert u == (":" + gap) + q;
    Glue(before, Quoted(raw), colon, ":" + gap, q);
  }

  /** What ParseKey found where. */
  lemma KeyShape(s: string, k: Key, q: string) returns (t: string, r: string, u: string)
    requires ParseKey(s) == Ok(k, q)
    ensures k.before == Blank(s) && t == s[|k.before|..] && t != "" && t[0] == '"'
    ensures ScanRaw(t[1..]) == Ok(k.raw, r) && k.colon == Blank(r) && u == r[|k.colon|..] && u != "" && u[0] == ':'
    ensures k.gap == Blank(u[1..]) && q == u[1..][|k.gap|..]
  {
    t := s[|Blank(s)|..];
    r := ScanRaw(t[1..]).rest;
    u := r[|Blank(r)|..];
  }

  lemma LiteralSound(t: string, raw: string, r: string)
    requires t != "" && t[0] == '"' && ScanRaw(t[1..]) == Ok(raw, r)
    ensures ValidRaw(raw) && t == "\"" + (raw + "\"" + r)
  {
    ScanSound(t[1..]);
    assert t == "\"" + t[1..];
  }

  lemma BlankCut(s: string, w: string, t: string)
    requires w == Blank(s) && t == s[|w|..]
    ensures AllBlank(w) && s == w + t
  {
    BlankSound(s);
  }

  lemma ColonCut(u: string)
    requires u != "" && u[0] == ':'
    ensures u == ":" + u[1..]
  {
  }

  lemma KeyFromShape(s: string, k: Key, q: string, t: string, r: string, u: string)
    requires k.before == Blank(s) && t == s[|k.before|..] && t != "" && t[0] == '"'
    requires ScanRaw(t[1..]) == Ok(k.raw, r) && k.colon == Blank(r) && u == r[|k.colon|..] && u != "" && u[0] == ':'
    requires k.gap == Blank(u[1..]) && q == u[1..][|k.gap|..]
    ensures ValidKey(k) && s == UnparseKey(k) + q
  {
    LiteralSound(t, k.raw, r);
    BlankCut(s, k.before, t);
    BlankCut(r, k.colon, u);
    BlankCut(u[1..], k.gap, q);
    ColonCut(u);
    KeyGlue(s, k.before, t, k.raw, r, k.colon, u, k.gap, q);
  }

  lemma KeySound(s: string, k: Key, q: string)
    requires ParseKey(s) == Ok(k, q)
    ensures ValidKey(k) && s == UnparseKey(k) + q
  {
    var t, r, u := KeyShape(s, k, q);
    KeyFromShape(s, k, q, t, r, u);
  }

  /** What ParseMembers found where. */
  lemma MembersShape(s: string, ms: Members, u: string) returns (q: string, r: string, t: string)
    requires ParseMembers(s) == Ok(ms, u)
    ensures ParseKey(s) == Ok(ms.key, q) && ParseValue(q) == Ok(ms.value, r) && ms.after == Blank(r)
    ensures t == r[|ms.after|..] && t != "" && |t| < |s|
    ensures if ms.LastMember? then t[0] == '}' && u == t[1..] else t[0] == ',' && ParseMembers(t[1..]) == Ok(ms.rest, u)
  {
    q := ParseKey(s).rest;
    r := ParseValue(q).rest;
    t := r[|Blank(r)|..];
  }

  lemma MembersGlue(s: string, q: string, r: string, t: string, ms: Members, u: string)
    requires s == UnparseKey(ms.key) + q && q == Unparse(ms.value) + r && r == ms.after + t
    requires t == (if ms.LastMember? then "}" else "," + UnparseMembers(ms.rest)) + u
    ensures s == UnparseMembers(ms) + u
  {
    Glue(UnparseKey(ms.key), Unparse(ms.value), ms.after, if ms.LastMember? then "}" else "," + UnparseMembers(ms.rest), u);
  }

  lemma MembersTail(t: string, ms: Members, u: string)
    requires t != ""
    requires if ms.LastMember? then t[0] == '}' && u == t[1..] else t[0] == ',' && t[1..] == UnparseMembers(ms.rest) + u
    ensures t == (if ms.LastMember? then "}" else "," + UnparseMembers(ms.rest)) + u
  {
    assert t == [t[0]] + t[1..];
  }

  lemma {:induction false} MembersSound(s: string, ms: Members, u: string)
    requires ParseMembers(s) == Ok(ms, u)
    ensures ValidMembers(ms) && s == UnparseMembers(ms) + u
    decreases |s|, 1
  {
    var q, r, t := MembersShape(s, ms, u);
    if ms.MoreMembers? {
      MembersSound(t[1..], ms.rest, u);
    }
    MembersTail(t, ms, u);
    MembersHeadSound(s, q, r, ms);
    MembersGlue(s, q, r, t, ms, u);
  }

  lemma {:induction false} MembersHeadSound(s: string, q: string, r: string, ms: Members)
    requires ParseKey(s) == Ok(ms.key, q) && ParseValue(q) == Ok(ms.value, r) && ms.after == Blank(r)
    ensures ValidKey(ms.key) && Valid(ms.value) && AllBlank(ms.after)
    ensures s == UnparseKey(ms.key) + q && q == Unparse(ms.value) + r && r == ms.after + r[|ms.after|..]
    decreases |s|, 0, 1
  {
    KeySound(s, ms.key, q);
    ValueSound(q);
    BlankSound(r);
  }

  // ----- completeness: what is written is parsed back, whatever follows it -----

  /** t cannot extend a number it is appended to. */
  predicate Safe(t: string) {
    t == "" || !NumChar(t[0])
  }

  lemma {:induction false} BlankComplete(w: string, t: string)
    requires AllBlank(w) && (t == "" || !IsBlank(t[0]))
    ensures Blank(w + t) == w && (w + t)[|w|..] == t
  {
    if w == "" {
      assert w + t == t;
    } else {
      BlankComplete(w[1..], t);
      assert (w + t)[1..] == w[1..] + t;
    }
  }

  lemma {:induction false} MunchComplete(d: string, t: string)
    requires Munch(d) == d && Safe(t)
    ensures Munch(d + t) == d && (d + t)[|d|..] == t
  {
    if d == "" {
      assert d + t == t;
    } else {
      MunchComplete(d[1..], t);
      assert (d + t)[1..] == d[1..] + t;
    }
  }

  lemma UnitStep(raw: string, z: string)
    requires Unit(raw) > 0
    ensures var n := Unit(raw);
            Unit(raw + z) == n && (raw + z)[n..] == raw[n..] + z && (raw + z)[..n] == raw[..n] && raw[..n] + raw[n..] == raw
  {
    UnitOf(raw, Unit(raw), raw[Unit(raw)..] + z);
    assert raw + z == raw[..Unit(raw)] + (raw[Unit(raw)..] + z);
  }

  lemma {:induction false} ScanComplete(raw: string, t: string)
    requires ValidRaw(raw)
    ensures ScanRaw(raw + ("\"" + t)) == Ok(raw, t)
  {
    var z := "\"" + t;
    if raw == "" {
      assert raw + z == z;
    } else {
      ScanComplete(raw[Unit(raw)..], t);
      UnitStep(raw, z);
    }
  }

  /** The first character of a value tells its kind and is neither whitespace nor a delimiter. */
  lemma FirstChar(v: Value)
    requires Valid(v)
    ensures Unparse(v) != "" && !IsBlank(Unparse(v)[0])
    ensures Unparse(v)[0] != ']' && Unparse(v)[0] != '}' && Unparse(v)[0] != ','
    ensures v.Num? ==> NumChar(Unparse(v)[0])
  {
  }

  lemma TextComplete(raw: string, t: string)
    requires ValidRaw(raw)
    ensures ParseValue(Quoted(raw) + t) == Ok(Text(raw), t)
  {
    var u := raw + ("\"" + t);
    var s := "\"" + u;
    ScanComplete(raw, t);
    assert s[1..] == u;
    assert ParseString(s) == Ok(Text(raw), t);
    assert Quoted(raw) + t == s;
  }

  lemma NumComplete(d: string, t: string)
    requires Valid(Num(d)) && Safe(t)
    ensures ParseValue(d + t) == Ok(Num(d), t)
  {
    FirstChar(Num(d));
    MunchComplete(d, t);
  }

  lemma WordComplete(w: string, t: string)
    requires IsWord(w)
    ensures ParseValue(w + t) == Ok(Word(w), t)
  {
    var s := w + t;
    assert w <= s && s[|w|..] == t;
  }

  lemma ParsesArray(u: string)
    ensures ParseValue("[" + u) == ParseArray(u)
  {
    assert ("[" + u)[1..] == u;
  }

  lemma ParsesObject(u: string)
    ensures ParseValue("{" + u) == ParseObject(u)
  {
    assert ("{" + u)[1..] == u;
  }

  lemma Regroup(a: string, b: string, c: string, t: string)
    ensures a + (b + c) + t == a + (b + (c + t))
  {
    assert (b + c) + t == b + (c + t);
  }

  lemma EmptyArrStep(u: string, gap: string, t: string)
    requires Blank(u) == gap && |gap| < |u| && u[|gap|] == ']' && u[|gap| + 1..] == t
    ensures ParseValue("[" + u) == Ok(EmptyArr(gap), t)
  {
    assert ParseArray(u) == Ok(EmptyArr(gap), t);
    ParsesArray(u);
  }

  lemma EmptyArrComplete(gap: string, t: string)
    requires AllBlank(gap)
    ensures ParseValue("[" + (gap + "]") + t) == Ok(EmptyArr(gap), t)
  {
    BlankComplete(gap, "]" + t);
    EmptyArrStep(gap + ("]" + t), gap, t);
    Regroup("[", gap, "]", t);
  }

  lemma EmptyObjStep(u: string, gap: string, t: string)
    requires Blank(u) == gap && |gap| < |u| && u[|gap|] == '}' && u[|gap| + 1..] == t
    ensures ParseValue("{" + u) == Ok(EmptyObj(gap), t)
  {
    assert ParseObject(u) == Ok(EmptyObj(gap), t);
    ParsesObject(u);
  }

  lemma EmptyObjComplete(gap: string, t: string)
    requires AllBlank(gap)
    ensures ParseValue("{" + (gap + "}") + t) == Ok(EmptyObj(gap), t)
  {
    BlankComplete(gap, "}" + t);
    EmptyObjStep(gap + ("}" + t), gap, t);
    Regroup("{", gap, "}", t);
  }

  lemma ArrayStep(u: string, items: Items, t: string)
    requires ParseItems(u) == Ok(items, t) && |Blank(u)| < |u| && u[|Blank(u)|] != ']'
    ensures ParseValue("[" + u) == Ok(Arr(items), t)
  {
    assert ParseArray(u) == Ok(Arr(items), t);
    ParsesArray(u);
  }

  lemma ObjectStep(u: string, ms: Members, t: string)
    requires ParseMembers(u) == Ok(ms, t) && |Blank(u)| < |u| && u[|Blank(u)|] != '}'
    ensures ParseValue("{" + u) == Ok(Obj(ms), t)
  {
    assert ParseObject(u) == Ok(Obj(ms), t);
    ParsesObject(u);
  }

  lemma ArrComplete(items: Items, t: string)
    requires ValidItems(items) && ParseItems(UnparseItems(items) + t) == Ok(items, t)
    ensures ParseValue(Unparse(Arr(items)) + t) == Ok(Arr(items), t)
  {
    ItemsStart(items, t);
    ArrayStep(UnparseItems(items) + t, items, t);
    assert "[" + UnparseItems(items) + t == "[" + (UnparseItems(items) + t);
  }

  lemma ObjComplete(ms: Members, t: string)
    requires ValidMembers(ms) && ParseMembers(UnparseMembers(ms) + t) == Ok(ms, t)
    ensures ParseValue(Unparse(Obj(ms)) + t) == Ok(Obj(ms), t)
  {
    MembersStart(ms, t);
    ObjectStep(UnparseMembers(ms) + t, ms, t);
    assert "{" + UnparseMembers(ms) + t == "{" + (UnparseMembers(ms) + t);
  }

  lemma {:induction false} ValueComplete(v: Value, t: string)
    requires Valid(v) && Safe(t)
    ensures ParseValue(Unparse(v) + t) == Ok(v, t)
    decreases v
  {
    match v
    case Word(w) => WordComplete(w, t);
    case Num(d) => NumComplete(d, t);
    case Text(raw) => TextComplete(raw, t);
    case EmptyArr(gap) => EmptyArrComplete(gap, t);
    case Arr(items) =>
      ItemsComplete(items, t);
      ArrComplete(items, t);
    case EmptyObj(gap) => EmptyObjComplete(gap, t);
    case Obj(members) =>
      MembersComplete(members, t);
      ObjComplete(members, t);
  }

  lemma ItemsStart(items: Items, t: string)
    requires ValidItems(items)
    ensures var s := UnparseItems(items) + t;
            Blank(s) == items.before && |items.before| < |s| && s[|items.before|] != ']'
  {
    FirstChar(items.value);
    var v := Unparse(items.value);
    var more := items.after + if items.LastItem? then "]" else "," + UnparseItems(items.rest);
    BlankComplete(items.before, (v + more) + t);
    assert (items.before + (v + more)) + t == items.before + ((v + more) + t);
  }

  lemma Front(a: string, b: string, c: string, d: string)
    ensures (a + b) + c + d == a + (b + (c + d))
  {
  }

  lemma MembersStart(ms: Members, t: string)
    requires ValidMembers(ms)
    ensures var s := UnparseMembers(ms) + t;
            Blank(s) == ms.key.before && |ms.key.before| < |s| && s[|ms.key.before|] != '}'
  {
    var k := ms.key;
    var more := Unparse(ms.value) + (ms.after + if ms.LastMember? then "}" else "," + UnparseMembers(ms.rest));
    var name := Quoted(k.raw) + (k.colon + (":" + k.gap));
    BlankComplete(k.before, name + (more + t));
    Front(k.before, name, more, t);
  }

  lemma ItemsText(items: Items, t: string, tail: string)
    requires tail == if items.LastItem? then "]" + t else "," + (UnparseItems(items.rest) + t)
    ensures UnparseItems(items) + t == items.before + (Unparse(items.value) + (items.after + tail))
  {
    var d := if items.LastItem? then "]" else "," + UnparseItems(items.rest);
    assert d + t == tail;
    Glue(items.before, Unparse(items.value), items.after, d, t);
  }

  lemma MembersText(ms: Members, t: string, tail: string)
    requires tail == if ms.LastMember? then "}" + t else "," + (UnparseMembers(ms.rest) + t)
    ensures UnparseMembers(ms) + t == UnparseKey(ms.key) + (Unparse(ms.value) + (ms.after + tail))
  {
    var d := if ms.LastMember? then "}" else "," + UnparseMembers(ms.rest);
    assert d + t == tail;
    Glue(UnparseKey(ms.key), Unparse(ms.value), ms.after, d, t);
  }

  /** One step of ParseItems, from what its parts return. */
  lemma ItemsStep(s: string, q: string, r: string, tail: string, items: Items, t: string)
    requires Blank(s) == items.before && s[|items.before|..] == q && ParseValue(q) == Ok(items.value, r)
    requires Blank(r) == items.after && r[|items.after|..] == tail && tail != ""
    requires if items.LastItem? then tail == "]" + t else tail[0] == ',' && ParseItems(tail[1..]) == Ok(items.rest, t)
    ensures ParseItems(s) == Ok(items, t)
  {
  }

  lemma {:induction false} ItemsComplete(items: Items, t: string)
    requires ValidItems(items)
    ensures ParseItems(UnparseItems(items) + t) == Ok(items, t)
    decreases items
  {
    var tail := if items.LastItem? then "]" + t else "," + (UnparseItems(items.rest) + t);
    var r := items.after + tail;
    ItemsText(items, t, tail);
    FirstChar(items.value);
    BlankComplete(items.before, Unparse(items.value) + r);
    ValueComplete(items.value, r);
    BlankComplete(items.after, tail);
    assert tail[1..] == if items.LastItem? then t else UnparseItems(items.rest) + t;
    if items.MoreItems? {
      ItemsComplete(items.rest, t);
    }
    ItemsStep(UnparseItems(items) + t, Unparse(items.value) + r, r, tail, items, t);
  }

  lemma KeyStep(s: string, t: string, r: string, u: string, k: Key, q: string)
    requires Blank(s) == k.before && s[|k.before|..] == t && t != "" && t[0] == '"'
    requires ScanRaw(t[1..]) == Ok(k.raw, r) && Blank(r) == k.colon && r[|k.colon|..] == u && u != "" && u[0] == ':'
    requires Blank(u[1..]) == k.gap && u[1..][|k.gap|..] == q
    ensures ParseKey(s) == Ok(k, q)
  {
  }

  lemma KeyComplete(k: Key, t: string)
    requires ValidKey(k) && (t == "" || !IsBlank(t[0]))
    ensures ParseKey(UnparseKey(k) + t) == Ok(k, t)
  {
    var end := ":" + (k.gap + t);
    var lit := "\"" + (k.raw + ("\"" + (k.colon + end)));
    KeyGlue(k.before + lit, k.before, lit, k.raw, k.colon + end, k.colon, end, k.gap, t);
    BlankComplete(k.before, lit);
    ScanComplete(k.raw, k.colon + end);
    BlankComplete(k.colon, end);
    BlankComplete(k.gap, t);
    assert lit[1..] == k.raw + ("\"" + (k.colon + end));
    assert end[1..] == k.gap + t;
    KeyStep(k.before + lit, lit, k.colon + end, end, k, t);
  }

  /** One step of ParseMembers, from what its parts return. */
  lemma MembersStep(s: string, q: string, r: string, tail: string, ms: Members, t: string)
    requires ParseKey(s) == Ok(ms.key, q) && ParseValue(q) == Ok(ms.value, r)
    requires Blank(r) == ms.after && r[|ms.after|..] == tail && tail != ""
    requires if ms.LastMember? then tail == "}" + t else tail[0] == ',' && ParseMembers(tail[1..]) == Ok(ms.rest, t)
    ensures ParseMembers(s) == Ok(ms, t)
  {
  }

  lemma MembersHead(ms: Members, tail: string)
    requires ValidMembers(ms) && tail != "" && !IsBlank(tail[0]) && Safe(tail)
    ensures var r := ms.after + tail;
            Blank(r) == ms.after && r[|ms.after|..] == tail && Safe(r)
            && ParseKey(UnparseKey(ms.key) + (Unparse(ms.value) + r)) == Ok(ms.key, Unparse(ms.value) + r)
  {
    FirstChar(ms.value);
    KeyComplete(ms.key, Unparse(ms.value) + (ms.after + tail));
    BlankComplete(ms.after, tail);
  }

  lemma {:induction false} MembersComplete(ms: Members, t: string)
    requires ValidMembers(ms)
    ensures ParseMembers(UnparseMembers(ms) + t) == Ok(ms, t)
    decreases ms
  {
    var tail := if ms.LastMember? then "}" + t else "," + (UnparseMembers(ms.rest) + t);
    var r := ms.after + tail;
    assert tail[1..] == if ms.LastMember? then t else UnparseMembers(ms.rest) + t;
    MembersText(ms, t, tail);
    MembersHead(ms, tail);
    ValueComplete(ms.value, r);
    if ms.MoreMembers? {
      MembersComplete(ms.rest, t);
    }
    MembersStep(UnparseMembers(ms) + t, Unparse(ms.value) + r, r, tail, ms, t);
  }

  /** A text parses to v exactly when it is v's own text between whitespace. */
  lemma TextIsParsed(s: string, v: Value)
    ensures ParseText(s) == Ok(v, "")
       <==> Valid(v) && exists a, b :: AllBlank(a) && AllBlank(b) && s == Padded(a, v, b)
  {
    BlankSound(s);
    var u := s[|Blank(s)|..];
    if ParseText(s) == Ok(v, "") {
      ValueSound(u);
      var r := ParseValue(u).rest;
      BlankSound(r);
      assert s == Padded(Blank(s), v, r);
    }
    if a, b :| Valid(v) && AllBlank(a) && AllBlank(b) && s == Padded(a, v, b) {
      PaddedParses(a, v, b);
    }
  }

  function Padded(a: string, v: Value, b: string): string {
    a + (Unparse(v) + b)
  }

  lemma PaddedParses(a: string, v: Value, b: string)
    requires Valid(v) && AllBlank(a) && AllBlank(b)
    ensures ParseText(Padded(a, v, b)) == Ok(v, "")
  {
    FirstChar(v);
    BlankComplete(a, Unparse(v) + b);
    ValueComplete(v, b);
    BlankComplete(b, "");
    assert b + "" == b;
  }
}
