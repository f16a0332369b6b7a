/** `url.Values`: the application/x-www-form-urlencoded form of multi-valued fields (section 5 of the WHATWG
    URL Standard), as Go writes and reads it. A character here stands for one byte. */
module UrlValues {
  import opened Basics
  import opened Hex
  import opened Ordering
  import Joining

  type Values = map<string, seq<string>>

  ghost predicate Bytes(s: string) {
    forall i :: 0 <= i < |s| ==> s[i] as int < 256
  }

  ghost predicate ByteValues(v: Values) {
    forall k :: k in v ==> Bytes(k) && AllBytes(v[k])
  }

  ghost predicate AllBytes(parts: seq<string>) {
    forall i :: 0 <= i < |parts| ==> Bytes(parts[i])
  }

  // ----- percent-encoding -----

  predicate Unreserved(c: char) {
    'a' <= c <= 'z' || 'A' <= c <= 'Z' || '0' <= c <= '9' || c == '-' || c == '_' || c == '.' || c == '~'
  }

  function UpperHex(n: nat): (c: char)
    requires n < 16
    ensures IsHex(c) && HexValue(c) == n
    ensures '0' <= c <= '9' || 'A' <= c <= 'F'
  {
    if n < 10 then (n + '0' as int) as char else (n - 10 + 'A' as int) as char
  }

  function EscapeChar(c: char): string {
    if Unreserved(c) then [c]
    else if c == ' ' then "+"
    else ['%', UpperHex(c as int / 16 % 16), UpperHex(c as int % 16)]
  }

  function QueryEscape(s: string): string {
    if s == "" then "" else EscapeChar(s[0]) + QueryEscape(s[1..])
  }

  /** A percent sign without two hexadecimal digits after it is an error. */
  function QueryUnescape(s: string): Option<string> {
    if s == "" then Some("")
    else if s[0] == '%' then
      if |s| < 3 || !IsHex(s[1]) || !IsHex(s[2]) then None
      else
        match QueryUnescape(s[3..])
        case None => None
        case Some(t) => Some([(HexValue(s[1]) * 16 + HexValue(s[2])) as char] + t)
    else
      match QueryUnescape(s[1..])
      case None => None
      case Some(t) => Some([if s[0] == '+' then ' ' else s[0]] + t)
  }

  lemma UnescapeStep(c: char, t: string)
    requires c as int < 256 && QueryUnescape(t).Some?
    ensures QueryUnescape(EscapeChar(c) + t) == Some([c] + QueryUnescape(t).value)
  {
    var e := EscapeChar(c) + t;
    if !Unreserved(c) && c != ' ' {
      assert e[3..] == t;
      assert e[1] == UpperHex(c as int / 16) && e[2] == UpperHex(c as int % 16);
    } else {
      assert e[1..] == t;
    }
  }

  lemma {:induction false} EscapeRoundTrip(s: string)
    requires Bytes(s)
    ensures QueryUnescape(QueryEscape(s)) == Some(s)
  {
    if s != "" {
      EscapeRoundTrip(s[1..]);
      UnescapeStep(s[0], QueryEscape(s[1..]));
      assert s == [s[0]] + s[1..];
    }
  }

  /** Letters, digits and - _ . ~ are written as they are. */
  ghost predicate Plain(c: char) {
    || 48 <= c as int <= 57 || 65 <= c as int <= 90 || 97 <= c as int <= 122
    || c as int == 45 || c as int == 95 || c as int == 46 || c as int == 126
  }

  /** Escaping changes every other text, and leaves only these characters, plus signs and percent signs. */
  lemma {:induction false} EscapeKeepsIff(s: string)
    ensures QueryEscape(s) == s <==> forall c :: c in s ==> Plain(c)
    ensures forall c :: c in QueryEscape(s) ==> Plain(c) || c == '+' || c == '%'
    ensures |QueryEscape(s)| >= |s|
  {
    if s != "" {
      EscapeKeepsIff(s[1..]);
      var e, rest := EscapeChar(s[0]), QueryEscape(s[1..]);
      assert s == [s[0]] + s[1..];
      assert QueryEscape(s)[|e|..] == rest && QueryEscape(s)[0] == e[0];
      assert s[0] in s;
    }
  }

  /** Escaped text holds none of the characters the format gives a meaning. */
  predicate Clean(s: string) {
    '&' !in s && '=' !in s && ';' !in s
  }

  lemma {:induction false} EscapeClean(s: string)
    ensures Clean(QueryEscape(s))
  {
    if s != "" {
      EscapeClean(s[1..]);
      assert Clean(EscapeChar(s[0]));
    }
  }

  lemma {:induction false} UnescapeBytes(s: string)
    requires Bytes(s) && QueryUnescape(s).Some?
    ensures Bytes(QueryUnescape(s).value)
  {
    if s != "" {
      assert s[0] in s;
      if s[0] == '%' {
        UnescapeBytes(s[3..]);
      } else {
        UnescapeBytes(s[1..]);
      }
    }
  }

  // ----- Values.Encode -----

  datatype Field = Field(name: string, value: string)

  function FieldText(f: Field): string {
    QueryEscape(f.name) + "=" + QueryEscape(f.value)
  }

  function Texts(fields: seq<Field>): seq<string> {
    seq(|fields|, i requires 0 <= i < |fields| => FieldText(fields[i]))
  }

  function KeyFields(name: string, values: seq<string>): seq<Field> {
    seq(|values|, i requires 0 <= i < |values| => Field(name, values[i]))
  }

  function FieldsAt(keys: seq<string>, v: Values): seq<Field>
    requires forall k :: k in keys ==> k in v
  {
    if keys == [] then []
    else FieldsAt(keys[..|keys| - 1], v) + KeyFields(keys[|keys| - 1], v[keys[|keys| - 1]])
  }

  /** All fields, names in string order. */
  function FieldList(v: Values): seq<Field> {
    SortedSetFacts(v.Keys);
    assert forall k :: k in SortedSet(v.Keys) ==> k in Elements(SortedSet(v.Keys));
    FieldsAt(SortedSet(v.Keys), v)
  }

  function Encode(v: Values): string {
    Joining.Join(Texts(FieldList(v)), '&')
  }

  // ----- url.ParseQuery -----

  /** strings.Cut at the first equals sign. */
  function Cut(s: string): (string, string) {
    if s == "" then ("", "")
    else if s[0] == '=' then ("", s[1..])
    else ([s[0]] + Cut(s[1..]).0, Cut(s[1..]).1)
  }

  function ParseField(part: string): Option<Field> {
    if ';' in part then None
    else
      match QueryUnescape(Cut(part).0)
      case None => None
      case Some(name) =>
        match QueryUnescape(Cut(part).1)
        case None => None
        case Some(value) => Some(Field(name, value))
  }

  function Add(v: Values, f: Field): Values {
    v[f.name := (if f.name in v then v[f.name] else []) + [f.value]]
  }

  /** Empty parts are skipped; one bad part makes the whole an error. */
  function DecodeParts(parts: seq<string>): Option<Values>
    decreases |parts|
  {
    if parts == [] then Some(map[])
    else
      var part := parts[|parts| - 1];
      match DecodeParts(parts[..|parts| - 1])
      case None => None
      case Some(v) =>
        if part == "" then Some(v)
        else
          match ParseField(part)
          case None => None
          case Some(f) => Some(Add(v, f))
  }

  function Decode(text: string): Option<Values> {
    DecodeParts(Joining.Split(text, '&'))
  }

  // ----- the round trip -----

  ghost predicate ByteFields(fields: seq<Field>) {
    forall f :: f in fields ==> Bytes(f.name) && Bytes(f.value)
  }

  function AddAll(fields: seq<Field>): Values
    decreases |fields|
  {
    if fields == [] then map[] else Add(AddAll(fields[..|fields| - 1]), fields[|fields| - 1])
  }

  lemma {:induction false} CutClean(a: string, b: string)
    requires '=' !in a
    ensures Cut(a + "=" + b) == (a, b)
  {
    var s := a + "=" + b;
    if a == "" {
      assert s[1..] == b;
    } else {
      assert s[1..] == a[1..] + "=" + b;
      CutClean(a[1..], b);
      assert [a[0]] + a[1..] == a;
    }
  }

  lemma FieldRoundTrip(f: Field)
    requires Bytes(f.name) && Bytes(f.value)
    ensures ParseField(FieldText(f)) == Some(f) && FieldText(f) != "" && Joining.Free(FieldText(f), '&')
  {
    EscapeClean(f.name);
    EscapeClean(f.value);
    CutClean(QueryEscape(f.name), QueryEscape(f.value));
    EscapeRoundTrip(f.name);
    EscapeRoundTrip(f.value);
  }

  /** Each part reads as the field at its place. */
  ghost predicate Reads(parts: seq<string>, fields: seq<Field>) {
    |parts| == |fields| && forall i :: 0 <= i < |parts| ==> parts[i] != "" && ParseField(parts[i]) == Some(fields[i])
  }

  lemma {:induction false} DecodeReads(parts: seq<string>, fields: seq<Field>)
    requires Reads(parts, fields)
    ensures DecodeParts(parts) == Some(AddAll(fields))
    decreases |parts|
  {
    if fields != [] {
      var n := |fields| - 1;
      DecodeReads(parts[..n], fields[..n]);
    }
  }

  lemma TextsRead(fields: seq<Field>)
    requires ByteFields(fields)
    ensures Reads(Texts(fields), fields) && Joining.AllFree(Texts(fields), '&')
  {
    forall i | 0 <= i < |fields|
      ensures Texts(fields)[i] != "" && ParseField(Texts(fields)[i]) == Some(fields[i])
      ensures Joining.Free(Texts(fields)[i], '&')
    {
      assert fields[i] in fields;
      FieldRoundTrip(fields[i]);
    }
  }

  lemma DecodeJoined(parts: seq<string>, fields: seq<Field>)
    requires Reads(parts, fields) && Joining.AllFree(parts, '&')
    ensures Decode(Joining.Join(parts, '&')) == Some(AddAll(fields))
  {
    if fields == [] {
      assert Joining.Split("", '&') == [""];
      assert [""][..0] == [];
    } else {
      Joining.SplitJoin(parts, '&');
      DecodeReads(parts, fields);
    }
  }

  lemma AddAllSnoc(fields: seq<Field>, f: Field)
    ensures AddAll(fields + [f]) == Add(AddAll(fields), f)
  {
    assert (fields + [f])[..|fields|] == fields;
  }

  lemma AddMore(v: Values, name: string, values: seq<string>, x: string)
    ensures Add(if values == [] then v else v[name := values], Field(name, x))
         == if values == [] && name in v then v[name := v[name] + [x]] else v[name := values + [x]]
  {
  }

  lemma KeyFieldsSnoc(fields: seq<Field>, name: string, values: seq<string>)
    requires values != []
    ensures var n := |values| - 1;
            fields + KeyFields(name, values) == (fields + KeyFields(name, values[..n])) + [Field(name, values[n])]
  {
  }

  lemma {:induction false} AddKey(fields: seq<Field>, name: string, values: seq<string>)
    requires name !in AddAll(fields)
    ensures AddAll(fields + KeyFields(name, values))
         == if values == [] then AddAll(fields) else AddAll(fields)[name := values]
    decreases |values|
  {
    if values == [] {
      assert fields + KeyFields(name, values) == fields;
    } else {
      var n := |values| - 1;
      AddKey(fields, name, values[..n]);
      KeyFieldsSnoc(fields, name, values);
      AddAllSnoc(fields + KeyFields(name, values[..n]), Field(name, values[n]));
      AddMore(AddAll(fields), name, values[..n], values[n]);
      assert values[..n] + [values[n]] == values;
    }
  }

  /** v without the names that have no value, which an encoding cannot show. */
  function NonEmpty(v: Values): Values {
    map k | k in v && v[k] != [] :: v[k]
  }

  function At(keys: seq<string>, v: Values): Values
    requires forall k :: k in keys ==> k in v
  {
    map k | k in keys && v[k] != [] :: v[k]
  }

  lemma AtSnoc(keys: seq<string>, v: Values)
    requires keys != [] && NoDup(keys) && forall k :: k in keys ==> k in v
    ensures var k := keys[|keys| - 1];
            k !in At(keys[..|keys| - 1], v)
            && At(keys, v) == if v[k] == [] then At(keys[..|keys| - 1], v) else At(keys[..|keys| - 1], v)[k := v[k]]
  {
    var n := |keys| - 1;
    assert keys == keys[..n] + [keys[n]];
    assert keys[n] !in keys[..n];
  }

  lemma {:induction false} AddAllAt(keys: seq<string>, v: Values)
    requires NoDup(keys) && forall k :: k in keys ==> k in v
    ensures AddAll(FieldsAt(keys, v)) == At(keys, v)
    decreases |keys|
  {
    if keys != [] {
      var n := |keys| - 1;
      AddAllAt(keys[..n], v);
      AtSnoc(keys, v);
      AddKey(FieldsAt(keys[..n], v), keys[n], v[keys[n]]);
    }
  }

  lemma {:induction false} ListBytes(keys: seq<string>, v: Values)
    requires ByteValues(v) && forall k :: k in keys ==> k in v
    ensures ByteFields(FieldsAt(keys, v))
    decreases |keys|
  {
    if keys != [] {
      var n := |keys| - 1;
      ListBytes(keys[..n], v);
      assert keys[n] in keys;
      forall f | f in KeyFields(keys[n], v[keys[n]]) ensures Bytes(f.name) && Bytes(f.value) {
        var i :| 0 <= i < |v[keys[n]]| && f == KeyFields(keys[n], v[keys[n]])[i];
        assert Bytes(v[keys[n]][i]);
      }
    }
  }

  lemma AtAll(keys: seq<string>, v: Values)
    requires Elements(keys) == v.Keys
    ensures (forall k :: k in keys ==> k in v) && At(keys, v) == NonEmpty(v)
  {
    assert forall k :: k in keys <==> k in Elements(keys);
  }

  lemma AllFields(v: Values)
    ensures AddAll(FieldList(v)) == NonEmpty(v) && (ByteValues(v) ==> ByteFields(FieldList(v)))
  {
    var keys := SortedSet(v.Keys);
    SortedSetFacts(v.Keys);
    AtAll(keys, v);
    AddAllAt(keys, v);
    if ByteValues(v) {
      ListBytes(keys, v);
    }
  }

  /** Decoding an encoded set of fields gives every field with its values, in order. */
  lemma EncodeRoundTrip(v: Values)
    requires ByteValues(v)
    ensures Decode(Encode(v)) == Some(NonEmpty(v))
  {
    AllFields(v);
    TextsRead(FieldList(v));
    DecodeJoined(Texts(FieldList(v)), FieldList(v));
  }

  lemma {:induction false} EscapeBytes(s: string)
    ensures Bytes(QueryEscape(s))
  {
    if s != "" {
      EscapeBytes(s[1..]);
    }
  }

  lemma {:induction false} JoinBytes(parts: seq<string>)
    requires AllBytes(parts)
    ensures Bytes(Joining.Join(parts, '&'))
  {
    if |parts| > 1 {
      JoinBytes(parts[1..]);
    }
  }

  lemma EncodeBytes(v: Values)
    ensures Bytes(Encode(v))
  {
    var texts := Texts(FieldList(v));
    forall i | 0 <= i < |texts| ensures Bytes(texts[i]) {
      EscapeBytes(FieldList(v)[i].name);
      EscapeBytes(FieldList(v)[i].value);
    }
    JoinBytes(texts);
  }

  lemma {:induction false} SplitBytes(s: string, sep: char)
    requires Bytes(s)
    ensures AllBytes(Joining.Split(s, sep))
  {
    if s != "" {
      assert s[0] in s;
      SplitBytes(s[1..], sep);
    }
  }

  lemma {:induction false} CutBytes(s: string)
    requires Bytes(s)
    ensures Bytes(Cut(s).0) && Bytes(Cut(s).1)
  {
    if s != "" && s[0] != '=' {
      assert s[0] in s;
      CutBytes(s[1..]);
    }
  }

  lemma {:induction false} PartsDecoded(parts: seq<string>)
    requires AllBytes(parts) && DecodeParts(parts).Some?
    ensures ByteValues(DecodeParts(parts).value) && NonEmpty(DecodeParts(parts).value) == DecodeParts(parts).value
    decreases |parts|
  {
    if parts != [] {
      var n := |parts| - 1;
      PartsDecoded(parts[..n]);
      assert parts[n] in parts;
      if parts[n] != "" {
        CutBytes(parts[n]);
        UnescapeBytes(Cut(parts[n]).0);
        UnescapeBytes(Cut(parts[n]).1);
        AddKeeps(DecodeParts(parts[..n]).value, ParseField(parts[n]).value);
      }
    }
  }

  lemma AddKeeps(v: Values, f: Field)
    requires ByteValues(v) && NonEmpty(v) == v && Bytes(f.name) && Bytes(f.value)
    ensures ByteValues(Add(v, f)) && NonEmpty(Add(v, f)) == Add(v, f)
  {
    forall k | k in v ensures v[k] != [] {
      assert k in NonEmpty(v);
    }
    var w := Add(v, f);
    assert w.Keys == v.Keys + {f.name};
    assert forall k :: k in w ==> w[k] == if k == f.name then (if k in v then v[k] else []) + [f.value] else v[k];
  }

  /** What decodes is bytes with no empty lists, so it can be encoded again without loss. */
  lemma Decoded(text: string)
    requires Bytes(text) && Decode(text).Some?
    ensures ByteValues(Decode(text).value) && NonEmpty(Decode(text).value) == Decode(text).value
  {
    SplitBytes(text, '&');
    PartsDecoded(Joining.Split(text, '&'));
  }

  // ----- the form location of a mutation -----

  /** An empty body counts as no fields; one that does not parse is an error. Verbatim mode writes the
      parameter's name and value as they are, in front of the other fields. */
  function ApplyForm(body: string, name: string, value: string, verbatim: bool): Option<string> {
    match if body == "" then Some(map[]) else Decode(body)
    case None => None
    case Some(v) => Some(if verbatim then Spliced(v - {name}, name, value) else Encode(v[name := [value]]))
  }

  function Spliced(others: Values, name: string, value: string): string {
    name + "=" + value + if Encode(others) != "" then "&" + Encode(others) else ""
  }

  lemma SetBytes(v: Values, name: string, value: string)
    requires ByteValues(v) && NonEmpty(v) == v && Bytes(name) && Bytes(value)
    ensures ByteValues(v[name := [value]]) && NonEmpty(v[name := [value]]) == v[name := [value]]
    ensures ByteValues(v - {name}) && NonEmpty(v - {name}) == v - {name}
  {
    forall k | k in v ensures v[k] != [] {
      assert k in NonEmpty(v);
    }
    var w, u := v[name := [value]], v - {name};
    assert forall k :: k in w ==> w[k] == if k == name then [value] else v[k];
    assert forall k :: k in u ==> k in v && u[k] == v[k];
  }

  /** Escaped mode: decoding the mutated body gives the old fields with exactly the named one replaced. */
  lemma FormSets(body: string, name: string, value: string)
    requires Bytes(body) && Bytes(name) && Bytes(value)
    ensures var v := if body == "" then Some(map[]) else Decode(body);
            if v.None? then ApplyForm(body, name, value, false).None?
            else ApplyForm(body, name, value, false).Some?
                 && Decode(ApplyForm(body, name, value, false).value) == Some(v.value[name := [value]])
  {
    var v := if body == "" then Some(map[]) else Decode(body);
    if v.Some? {
      if body != "" {
        Decoded(body);
      }
      assert NonEmpty(v.value) == v.value;
      SetBytes(v.value, name, value);
      EncodeRoundTrip(v.value[name := [value]]);
    }
  }

  lemma {:induction false} AddFirst(f: Field, fields: seq<Field>)
    requires f.name !in AddAll(fields)
    ensures AddAll([f] + fields) == AddAll(fields)[f.name := [f.value]]
    decreases |fields|
  {
    var all := [f] + fields;
    if fields == [] {
      assert all == [f] && all[..0] == [];
      var none: seq<string> := [];
      assert none + [f.value] == [f.value];
    } else {
      var n := |fields| - 1;
      assert all[..|all| - 1] == [f] + fields[..n] && all[|all| - 1] == fields[n];
      assert fields[n].name in AddAll(fields);
      AddFirst(f, fields[..n]);
      AddElsewhere(AddAll(fields[..n]), fields[n], f.name, [f.value]);
    }
  }

  lemma AddElsewhere(v: Values, g: Field, k: string, values: seq<string>)
    requires g.name != k
    ensures Add(v[k := values], g) == Add(v, g)[k := values]
  {
  }

  /** The spliced parameter as the first part of the text. */
  lemma SplicedText(others: Values, name: string, value: string)
    ensures Spliced(others, name, value) == Joining.Join([name + "=" + value] + Texts(FieldList(others)), '&')
  {
    var rest := Texts(FieldList(others));
    var all := [name + "=" + value] + rest;
    if rest != [] {
      assert rest[0] == FieldText(FieldList(others)[0]);
      JoinNonEmpty(rest);
      assert all[1..] == rest;
      assert Joining.Join(all, '&') == (name + "=" + value) + ['&'] + Joining.Join(rest, '&');
    }
  }

  lemma JoinNonEmpty(parts: seq<string>)
    requires parts != [] && parts[0] != ""
    ensures Joining.Join(parts, '&') != ""
  {
  }

  // ----- verbatim mode, for any parameter name -----

  /** A name that stands for itself when written unescaped. */
  predicate Literal(name: string) {
    '&' !in name && '=' !in name && ';' !in name && '%' !in name && '+' !in name
  }

  lemma {:induction false} UnescapeShort(s: string)
    requires QueryUnescape(s).Some?
    ensures |QueryUnescape(s).value| <= |s|
  {
    if s != "" {
      if s[0] == '%' {
        UnescapeShort(s[3..]);
      } else {
        UnescapeShort(s[1..]);
      }
    }
  }

  lemma {:induction false} UnescapeSelfIff(s: string)
    ensures QueryUnescape(s) == Some(s) <==> '%' !in s && '+' !in s
  {
    if s != "" {
      assert s == [s[0]] + s[1..];
      if s[0] == '%' {
        if QueryUnescape(s).Some? {
          UnescapeShort(s[3..]);
        }
      } else {
        UnescapeSelfIff(s[1..]);
        if QueryUnescape(s).Some? {
          var t := QueryUnescape(s[1..]).value;
          assert QueryUnescape(s).value[0] == if s[0] == '+' then ' ' else s[0];
          assert QueryUnescape(s).value[1..] == t;
        }
      }
    }
  }

  lemma LiteralReads(name: string, value: string)
    requires Bytes(value) && Literal(name)
    ensures ParseField(name + "=" + QueryEscape(value)) == Some(Field(name, value))
    ensures Joining.Free(name + "=" + QueryEscape(value), '&')
  {
    EscapeClean(value);
    CutClean(name, QueryEscape(value));
    UnescapeSelfIff(name);
    EscapeRoundTrip(value);
  }

  lemma LiteralDecodes(v: Values, name: string, value: string)
    requires ByteValues(v) && Bytes(name) && Bytes(value) && Literal(name)
    ensures Decode(Spliced(v - {name}, name, QueryEscape(value))) == Some(NonEmpty(v)[name := [value]])
  {
    var others, f := v - {name}, Field(name, value);
    var fields, first := FieldList(others), name + "=" + QueryEscape(value);
    OthersBytes(v, name);
    SplicedText(others, name, QueryEscape(value));
    AllFields(others);
    TextsRead(fields);
    LiteralReads(name, value);
    ReadsFirst(first, f, Texts(fields), fields);
    AddFirst(f, fields);
    DecodeJoined([first] + Texts(fields), [f] + fields);
    OthersSet(v, name, value);
  }

  lemma OthersBytes(v: Values, name: string)
    requires ByteValues(v)
    ensures ByteValues(v - {name}) && name !in NonEmpty(v - {name})
  {
  }

  lemma OthersSet(v: Values, name: string, value: string)
    ensures NonEmpty(v - {name})[name := [value]] == NonEmpty(v)[name := [value]]
  {
  }

  lemma ReadsFirst(first: string, f: Field, parts: seq<string>, fields: seq<Field>)
    requires Reads(parts, fields) && Joining.AllFree(parts, '&')
    requires first != "" && ParseField(first) == Some(f) && Joining.Free(first, '&')
    ensures Reads([first] + parts, [f] + fields) && Joining.AllFree([first] + parts, '&')
  {
  }

  /** Every decoded name was read from some part. */
  lemma {:induction false} NamesRead(parts: seq<string>, name: string) returns (p: string)
    requires DecodeParts(parts).Some? && name in DecodeParts(parts).value
    ensures p in parts && ParseField(p).Some? && ParseField(p).value.name == name
    decreases |parts|
  {
    var n := |parts| - 1;
    var before := DecodeParts(parts[..n]).value;
    if name in before {
      p := NamesRead(parts[..n], name);
      assert p in parts;
    } else {
      p := parts[n];
    }
  }

  lemma {:induction false} CutShort(a: string, t: string)
    ensures |Cut(a).0| <= |a| && |Cut(a + "=" + t).0| <= |a|
    ensures '=' in a ==> |Cut(a + "=" + t).0| < |a|
  {
    var s := a + "=" + t;
    if a != "" && a[0] != '=' {
      assert s[1..] == a[1..] + "=" + t;
      CutShort(a[1..], t);
    }
  }

  /** What is cut from a part of the spliced text is no longer than the name, and shorter if the name is torn. */
  lemma {:induction false} PieceShort(a: string, t: string, p: string)
    requires Joining.Free(t, '&') && p in Joining.Split(a + "=" + t, '&')
    ensures |Cut(p).0| <= |a| && (!Joining.Free(a, '&') ==> |Cut(p).0| < |a|)
    decreases |a|
  {
    if Joining.Free(a, '&') {
      Joining.SplitFree(a + "=" + t, '&');
      CutShort(a, t);
    } else {
      var x, y := Joining.SplitAtSeparator(a, '&');
      assert a + "=" + t == x + ['&'] + (y + "=" + t);
      Joining.SplitConcat(x, y + "=" + t, '&');
      if p in Joining.Split(x, '&') {
        Joining.SplitPartsShort(x, '&');
        CutShort(p, "");
      } else {
        PieceShort(y, t, p);
      }
    }
  }

  lemma NotReadBack(name: string, value: string, p: string)
    requires !Literal(name) && p in Joining.Split(name + "=" + QueryEscape(value), '&')
    ensures ParseField(p).Some? ==> ParseField(p).value.name != name
  {
    if ParseField(p).Some? {
      var t := QueryEscape(value);
      EscapeClean(value);
      PieceShort(name, t, p);
      UnescapeShort(Cut(p).0);
      if Joining.Free(name, '&') {
        Joining.SplitFree(name + "=" + t, '&');
        CutShort(name, t);
        if '=' !in name {
          CutClean(name, t);
          UnescapeSelfIff(name);
          Semicolon(name, t);
        }
      }
    }
  }

  lemma Semicolon(name: string, t: string)
    ensures ';' in name ==> ParseField(name + "=" + t).None?
  {
    if ';' in name {
      var i :| 0 <= i < |name| && name[i] == ';';
      assert (name + "=" + t)[i] == ';';
    }
  }

  lemma SplicedParts(others: Values, name: string, value: string)
    ensures forall p :: p in Joining.Split(Spliced(others, name, value), '&') ==>
              p in Joining.Split(name + "=" + value, '&') || p in Joining.Split(Encode(others), '&')
  {
    if Encode(others) != "" {
      assert Spliced(others, name, value) == (name + "=" + value) + ['&'] + Encode(others);
      Joining.SplitConcat(name + "=" + value, Encode(others), '&');
    } else {
      assert Spliced(others, name, value) == name + "=" + value;
    }
  }

  lemma OtherNames(others: Values, name: string, p: string)
    requires ByteValues(others) && name !in others && name != "" && p in Joining.Split(Encode(others), '&')
    ensures ParseField(p).Some? ==> ParseField(p).value.name != name
  {
    var fields := FieldList(others);
    AllFields(others);
    TextsRead(fields);
    if fields != [] {
      Joining.SplitJoin(Texts(fields), '&');
      var i :| 0 <= i < |Texts(fields)| && Texts(fields)[i] == p;
      assert ParseField(p) == Some(fields[i]);
      FieldListNames(others, i);
    } else {
      assert Joining.Split("", '&') == [""];
      assert ParseField("") == Some(Field("", ""));
    }
  }

  lemma FieldListNames(v: Values, i: nat)
    requires i < |FieldList(v)|
    ensures FieldList(v)[i].name in v
  {
    SortedSetFacts(v.Keys);
    assert forall k :: k in SortedSet(v.Keys) ==> k in Elements(SortedSet(v.Keys));
    FieldsAtNames(SortedSet(v.Keys), v, i);
  }

  lemma {:induction false} FieldsAtNames(keys: seq<string>, v: Values, i: nat)
    requires (forall k :: k in keys ==> k in v) && i < |FieldsAt(keys, v)|
    ensures FieldsAt(keys, v)[i].name in v
    decreases |keys|
  {
    var n := |keys| - 1;
    if i < |FieldsAt(keys[..n], v)| {
      FieldsAtNames(keys[..n], v, i);
    } else {
      assert keys[n] in keys;
    }
  }

  /** A name with any other character is not among the decoded ones, however the text decodes. */
  lemma NameIsLost(others: Values, name: string, value: string)
    requires ByteValues(others) && name !in others && name != "" && !Literal(name)
    ensures var d := Decode(Spliced(others, name, QueryEscape(value))); d.Some? ==> name !in d.value
  {
    var text := Spliced(others, name, QueryEscape(value));
    if Decode(text).Some? && name in Decode(text).value {
      var p := NamesRead(Joining.Split(text, '&'), name);
      SplicedParts(others, name, QueryEscape(value));
      if p in Joining.Split(name + "=" + QueryEscape(value), '&') {
        NotReadBack(name, value, p);
      } else {
        OtherNames(others, name, p);
      }
    }
  }

  /** Splicing a payload escaped beforehand decodes to the fields with exactly the named one replaced if and
      only if the name, which verbatim mode never escapes, stands for itself. */
  lemma SplicedDecodesIff(v: Values, name: string, value: string)
    requires ByteValues(v) && Bytes(name) && Bytes(value)
    ensures Decode(Spliced(v - {name}, name, QueryEscape(value))) == Some(NonEmpty(v)[name := [value]])
       <==> Literal(name)
  {
    if Literal(name) {
      LiteralDecodes(v, name, value);
    } else {
      NameIsLost(v - {name}, name, value);
    }
  }

  /** The textual form agrees with the structural one: a payload escaped beforehand and spliced in verbatim
      decodes to the same fields, exactly for the names that need no escaping. */
  lemma VerbatimAgrees(body: string, name: string, value: string)
    requires Bytes(body) && Bytes(name) && Bytes(value)
    ensures var plain, spliced := ApplyForm(body, name, value, false), ApplyForm(body, name, QueryEscape(value), true);
            && (plain.None? <==> spliced.None?)
            && (plain.Some? ==> (Decode(spliced.value) == Decode(plain.value) <==> Literal(name)))
  {
    FormSets(body, name, value);
    var v := if body == "" then Some(map[]) else Decode(body);
    if v.Some? {
      if body != "" {
        Decoded(body);
      }
      assert NonEmpty(v.value) == v.value;
      SplicedDecodesIff(v.value, name, value);
    }
  }
}
