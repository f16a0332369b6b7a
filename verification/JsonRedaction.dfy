/** Recursive redaction of JSON bodies in stored evidence. */
module JsonRedaction {
  import opened Basics
  import opened JsonSyntax
  import opened JsonTree
  import opened Ordering

  const PLACEHOLDER := "<REDACTED>"

  const SENSITIVE_NAMES: set<string> := {
    "password", "passwd", "secret", "token", "access_token", "refresh_token", "api_key", "apikey",
    "authorization", "client_secret", "session", "private_key", "csrf", "csrf_token", "xsrf", "xsrf_token"
  }

  /** Stands for `strings.ToLower` after `strings.TrimSpace`, over all of Unicode. */
  type Fold = string -> string

  predicate IsSensitive(fold: Fold, name: string) {
    fold(name) in SENSITIVE_NAMES
  }

  function Redact(fold: Fold, j: Json): Json {
    match j
    case Object(fields) =>
      Object(map k | k in fields :: if IsSensitive(fold, k) then Str(PLACEHOLDER) else Redact(fold, fields[k]))
    case Array(items) => Array(seq(|items|, i requires 0 <= i < |items| => Redact(fold, items[i])))
    case _ => j
  }

  // ----- what redaction keeps and hides -----

  datatype Move = Field(name: string) | Index(i: nat)

  /** The value a path of keys and positions leads to. */
  function At(j: Json, path: seq<Move>): Option<Json> {
    if path == [] then Some(j)
    else
      match path[0]
      case Field(name) => if j.Object? && name in j.fields then At(j.fields[name], path[1..]) else None
      case Index(i) => if j.Array? && i < |j.items| then At(j.items[i], path[1..]) else None
  }

  predicate Exposed(fold: Fold, path: seq<Move>) {
    forall i :: 0 <= i < |path| ==> !(path[i].Field? && IsSensitive(fold, path[i].name))
  }

  /** Along a path with no sensitive key, redaction only redacts what is below: the same places exist, and
      scalars there are unchanged. */
  lemma {:induction false} RedactBelow(fold: Fold, j: Json, path: seq<Move>)
    requires Exposed(fold, path)
    ensures At(j, path).None? <==> At(Redact(fold, j), path).None?
    ensures At(j, path).Some? ==> At(Redact(fold, j), path) == Some(Redact(fold, At(j, path).value))
    decreases |path|
  {
    if path != [] {
      assert !(path[0].Field? && IsSensitive(fold, path[0].name));
      match path[0]
      case Field(name) =>
        if j.Object? && name in j.fields {
          RedactBelow(fold, j.fields[name], path[1..]);
        }
      case Index(i) =>
        if j.Array? && i < |j.items| {
          RedactBelow(fold, j.items[i], path[1..]);
        }
    }
  }

  lemma {:induction false} AtThen(j: Json, path: seq<Move>, last: Move)
    ensures At(j, path + [last]) == if At(j, path).None? then None else At(At(j, path).value, [last])
    decreases |path|
  {
    if path == [] {
      assert path + [last] == [last];
    } else {
      assert (path + [last])[1..] == path[1..] + [last];
      match path[0]
      case Field(name) =>
        if j.Object? && name in j.fields {
          AtThen(j.fields[name], path[1..], last);
        }
      case Index(i) =>
        if j.Array? && i < |j.items| {
          AtThen(j.items[i], path[1..], last);
        }
    }
  }

  /** Complete and minimal: a sensitive key at any depth maps to the placeholder, a scalar under no sensitive
      key is unchanged, and no place appears or disappears above the redacted ones. */
  lemma RedactExactly(fold: Fold, j: Json, path: seq<Move>, name: string)
    requires Exposed(fold, path)
    ensures IsSensitive(fold, name) && At(j, path + [Field(name)]).Some? ==>
              At(Redact(fold, j), path + [Field(name)]) == Some(Str(PLACEHOLDER))
    ensures At(j, path).Some? && !At(j, path).value.Object? && !At(j, path).value.Array? ==> At(Redact(fold, j), path) == At(j, path)
    ensures At(Redact(fold, j), path + [Field(name)]).Some? <==> At(j, path + [Field(name)]).Some?
  {
    RedactBelow(fold, j, path);
    AtThen(j, path, Field(name));
    AtThen(Redact(fold, j), path, Field(name));
    if At(j, path).Some? {
      RedactField(fold, At(j, path).value, name);
    }
  }

  lemma RedactField(fold: Fold, j: Json, name: string)
    ensures At(Redact(fold, j), [Field(name)])
         == if At(j, [Field(name)]).None? then None
            else if IsSensitive(fold, name) then Some(Str(PLACEHOLDER)) else Some(Redact(fold, At(j, [Field(name)]).value))
  {
    var path := [Field(name)];
    assert path[1..] == [];
  }

  /** Nothing but the placeholder is ever left under a sensitive key. */
  lemma {:induction false} NothingSensitiveLeft(fold: Fold, j: Json, path: seq<Move>, name: string)
    requires IsSensitive(fold, name) && At(Redact(fold, j), path + [Field(name)]).Some?
    ensures At(Redact(fold, j), path + [Field(name)]) == Some(Str(PLACEHOLDER))
    decreases |path|
  {
    AtThen(Redact(fold, j), path, Field(name));
    if path == [] {
      assert path + [Field(name)] == [Field(name)];
      RedactField(fold, j, name);
    } else {
      var rest := path[1..] + [Field(name)];
      assert (path + [Field(name)])[1..] == rest;
      match path[0]
      case Field(first) =>
        assert Redact(fold, j).Object? && first in Redact(fold, j).fields && j.Object? && first in j.fields;
        if IsSensitive(fold, first) {
          ScalarHasNoFields(PLACEHOLDER, rest);
        } else {
          NothingSensitiveLeft(fold, j.fields[first], path[1..], name);
        }
      case Index(i) =>
        NothingSensitiveLeft(fold, j.items[i], path[1..], name);
    }
  }

  lemma ScalarHasNoFields(text: string, path: seq<Move>)
    requires path != []
    ensures At(Str(text), path).None?
  {
  }

  /** Redacting again changes nothing. */
  lemma {:induction false} RedactTwice(fold: Fold, j: Json)
    ensures Redact(fold, Redact(fold, j)) == Redact(fold, j)
  {
    match j
    case Object(fields) =>
      forall k | k in fields && !IsSensitive(fold, k) ensures Redact(fold, Redact(fold, fields[k])) == Redact(fold, fields[k]) {
        RedactTwice(fold, fields[k]);
      }
    case Array(items) =>
      forall i | 0 <= i < |items| ensures Redact(fold, Redact(fold, items[i])) == Redact(fold, items[i]) {
        RedactTwice(fold, items[i]);
      }
    case _ =>
  }

  // ----- numbers: decoded to binary floating point and printed back -----

  /** What a number's text becomes, or None when the number is out of range. */
  type Renumber = string -> Option<string>

  ghost predicate KeepsNumbers(f: Renumber) {
    forall d: string :: IsNumber(d) && Munch(d) == d && f(d).Some? ==> IsNumber(f(d).value) && Munch(f(d).value) == f(d).value
  }

  predicate InRange(f: Renumber, j: Json) {
    match j
    case Number(d) => f(d).Some?
    case Array(items) => forall i | 0 <= i < |items| :: InRange(f, items[i])
    case Object(fields) => forall k | k in fields :: InRange(f, fields[k])
    case _ => true
  }

  function Renumbered(f: Renumber, j: Json): Json
    requires InRange(f, j)
  {
    match j
    case Number(d) => Number(f(d).value)
    case Array(items) => Array(seq(|items|, i requires 0 <= i < |items| => Renumbered(f, items[i])))
    case Object(fields) => Object(map k | k in fields :: Renumbered(f, fields[k]))
    case _ => j
  }

  predicate GoodNumbers(j: Json) {
    match j
    case Number(d) => IsNumber(d) && Munch(d) == d
    case Array(items) => forall i | 0 <= i < |items| :: GoodNumbers(items[i])
    case Object(fields) => forall k | k in fields :: GoodNumbers(fields[k])
    case _ => true
  }

  // ----- json.Marshal of a tree -----

  function Printed(j: Json): Value
    decreases j, 1, 0
  {
    match j
    case Null => Word("null")
    case Bool(b) => Word(if b then "true" else "false")
    case Number(d) => Num(d)
    case Str(text) => Text(QuoteRaw(text))
    case Array(items) => if items == [] then EmptyArr("") else Arr(PrintedItems(j, 0))
    case Object(fields) =>
      SortedSetFacts(fields.Keys);
      InSet(fields.Keys);
      if fields.Keys == {} then EmptyObj("") else Obj(PrintedMembers(j, SortedSet(fields.Keys)))
  }

  function PrintedItems(j: Json, i: nat): Items
    requires j.Array? && i < |j.items|
    decreases j, 0, |j.items| - i
  {
    if i + 1 == |j.items| then LastItem("", Printed(j.items[i]), "")
    else MoreItems("", Printed(j.items[i]), "", PrintedItems(j, i + 1))
  }

  /** Keys in string order. */
  function PrintedMembers(j: Json, keys: seq<string>): Members
    requires j.Object? && keys != [] && forall k :: k in keys ==> k in j.fields
    decreases j, 0, |keys|
  {
    var v := Printed(j.fields[keys[0]]);
    if |keys| == 1 then LastMember(KeyOf(keys[0]), v, "")
    else MoreMembers(KeyOf(keys[0]), v, "", PrintedMembers(j, keys[1..]))
  }

  lemma InSet(s: set<string>)
    ensures forall k :: k in SortedSet(s) <==> k in s
    ensures s != {} ==> SortedSet(s) != []
  {
    SortedSetFacts(s);
    assert forall k :: k in SortedSet(s) <==> k in Elements(SortedSet(s));
  }

  /** Printing a tree and reading the text gives the tree back. */
  lemma {:induction false} PrintedMeans(j: Json)
    requires GoodNumbers(j)
    ensures Valid(Printed(j)) && Meaning(Printed(j)) == j
    decreases j, 1, 0
  {
    match j
    case Str(text) => QuoteRoundTrip(text);
    case Array(items) =>
      if items != [] {
        ItemsMean(j, 0);
        assert items[0..] == items;
      }
    case Object(fields) =>
      InSet(fields.Keys);
      if fields.Keys != {} {
        MembersMean(j, SortedSet(fields.Keys));
        assert FieldsAt(fields, SortedSet(fields.Keys)) == fields;
      } else {
        assert fields == map[];
      }
    case _ =>
  }

  lemma {:induction false} ItemsMean(j: Json, i: nat)
    requires GoodNumbers(j) && j.Array? && i < |j.items|
    ensures ValidItems(PrintedItems(j, i)) && Elems(PrintedItems(j, i)) == j.items[i..]
    decreases j, 0, |j.items| - i
  {
    PrintedMeans(j.items[i]);
    if i + 1 < |j.items| {
      ItemsMean(j, i + 1);
    }
  }

  ghost function FieldsAt(fields: map<string, Json>, keys: seq<string>): map<string, Json>
    requires forall k :: k in keys ==> k in fields
  {
    map k | k in keys :: fields[k]
  }

  lemma FieldsAtCons(fields: map<string, Json>, keys: seq<string>)
    requires keys != [] && forall k :: k in keys ==> k in fields
    ensures FieldsAt(fields, keys)
         == map[keys[0] := fields[keys[0]]] + if |keys| == 1 then map[] else FieldsAt(fields, keys[1..])
  {
    assert keys == [keys[0]] + keys[1..];
  }

  lemma {:induction false} MembersMean(j: Json, keys: seq<string>)
    requires GoodNumbers(j) && j.Object? && keys != [] && forall k :: k in keys ==> k in j.fields
    ensures ValidMembers(PrintedMembers(j, keys)) && FieldMap(PrintedMembers(j, keys)) == FieldsAt(j.fields, keys)
    decreases j, 0, |keys|
  {
    PrintedMeans(j.fields[keys[0]]);
    QuoteRoundTrip(keys[0]);
    FieldsAtCons(j.fields, keys);
    if |keys| > 1 {
      MembersMean(j, keys[1..]);
    }
  }

  // ----- redactJSON -----

  /** Every number written in the text is in range, under a repeated key as well. */
  predicate Representable(f: Renumber, v: Value) {
    match v
    case Num(d) => f(d).Some?
    case Arr(items) => RepresentableItems(f, items)
    case Obj(ms) => RepresentableMembers(f, ms)
    case _ => true
  }

  predicate RepresentableItems(f: Renumber, items: Items) {
    Representable(f, items.value) && (items.MoreItems? ==> RepresentableItems(f, items.rest))
  }

  predicate RepresentableMembers(f: Renumber, ms: Members) {
    Representable(f, ms.value) && (ms.MoreMembers? ==> RepresentableMembers(f, ms.rest))
  }

  lemma {:induction false} MeaningInRange(f: Renumber, v: Value)
    requires Valid(v) && Representable(f, v)
    ensures InRange(f, Meaning(v))
  {
    match v
    case Arr(items) => ElemsInRange(f, items);
    case Obj(ms) => FieldsInRange(f, ms);
    case _ =>
  }

  lemma {:induction false} ElemsInRange(f: Renumber, items: Items)
    requires ValidItems(items) && RepresentableItems(f, items)
    ensures forall i :: 0 <= i < |Elems(items)| ==> InRange(f, Elems(items)[i])
  {
    MeaningInRange(f, items.value);
    if items.MoreItems? {
      ElemsInRange(f, items.rest);
    }
  }

  lemma {:induction false} FieldsInRange(f: Renumber, ms: Members)
    requires ValidMembers(ms) && RepresentableMembers(f, ms)
    ensures forall k :: k in FieldMap(ms) ==> InRange(f, FieldMap(ms)[k])
  {
    MeaningInRange(f, ms.value);
    if ms.MoreMembers? {
      FieldsInRange(f, ms.rest);
    }
  }

  function RedactJson(fold: Fold, f: Renumber, body: string): Option<string> {
    match ParseText(body)
    case Fail => None
    case Ok(v, _) =>
      if Representable(f, v) then
        TextIsParsed(body, v);
        MeaningInRange(f, v);
        Some(Unparse(Printed(Redact(fold, Renumbered(f, Meaning(v))))))
      else None
  }

  lemma {:induction false} RenumberedGood(f: Renumber, j: Json)
    requires KeepsNumbers(f) && InRange(f, j) && GoodNumbers(j)
    ensures GoodNumbers(Renumbered(f, j))
  {
    match j
    case Array(items) =>
      forall i | 0 <= i < |items| ensures GoodNumbers(Renumbered(f, items[i])) {
        RenumberedGood(f, items[i]);
      }
    case Object(fields) =>
      forall k | k in fields ensures GoodNumbers(Renumbered(f, fields[k])) {
        RenumberedGood(f, fields[k]);
      }
    case _ =>
  }

  lemma {:induction false} RedactGood(fold: Fold, j: Json)
    requires GoodNumbers(j)
    ensures GoodNumbers(Redact(fold, j))
  {
    match j
    case Array(items) =>
      forall i | 0 <= i < |items| ensures GoodNumbers(Redact(fold, items[i])) {
        RedactGood(fold, items[i]);
      }
    case Object(fields) =>
      forall k | k in fields && !IsSensitive(fold, k) ensures GoodNumbers(Redact(fold, fields[k])) {
        RedactGood(fold, fields[k]);
      }
    case _ =>
  }

  lemma {:induction false} MeaningGood(v: Value)
    requires Valid(v)
    ensures GoodNumbers(Meaning(v))
  {
    match v
    case Arr(items) => ElemsGood(items);
    case Obj(ms) => FieldsGood(ms);
    case _ =>
  }

  lemma {:induction false} ElemsGood(items: Items)
    requires ValidItems(items)
    ensures forall i :: 0 <= i < |Elems(items)| ==> GoodNumbers(Elems(items)[i])
  {
    MeaningGood(items.value);
    if items.MoreItems? {
      ElemsGood(items.rest);
    }
  }

  lemma {:induction false} FieldsGood(ms: Members)
    requires ValidMembers(ms)
    ensures forall k :: k in FieldMap(ms) ==> GoodNumbers(FieldMap(ms)[k])
  {
    MeaningGood(ms.value);
    if ms.MoreMembers? {
      FieldsGood(ms.rest);
    }
  }

  /** The redacted text means exactly the redacted tree of what the body means, up to how numbers are written;
      redaction gives up exactly on bodies that are not JSON or hold a number out of range. */
  lemma RedactedBodyMeans(fold: Fold, f: Renumber, body: string)
    requires KeepsNumbers(f)
    ensures RedactJson(fold, f, body).Some? <==> ParseText(body).Ok? && Representable(f, ParseText(body).value)
    ensures RedactJson(fold, f, body).Some? ==>
              MeaningOf(body).Some? && InRange(f, MeaningOf(body).value)
              && MeaningOf(RedactJson(fold, f, body).value) == Some(Redact(fold, Renumbered(f, MeaningOf(body).value)))
  {
    if RedactJson(fold, f, body).Some? {
      var v := ParseText(body).value;
      TextIsParsed(body, v);
      MeaningInRange(f, v);
      MeaningGood(v);
      var j := Meaning(v);
      RenumberedGood(f, j);
      RedactGood(fold, Renumbered(f, j));
      PrintedMeans(Redact(fold, Renumbered(f, j)));
      OwnText(Printed(Redact(fold, Renumbered(f, j))));
    }
  }

  lemma {:induction false} PrintedFits(f: Renumber, j: Json)
    requires InRange(f, j)
    ensures Representable(f, Printed(j))
    decreases j, 1, 0
  {
    match j
    case Array(items) =>
      if items != [] {
        PrintedItemsFit(f, j, 0);
      }
    case Object(fields) =>
      InSet(fields.Keys);
      if fields.Keys != {} {
        PrintedMembersFit(f, j, SortedSet(fields.Keys));
      }
    case _ =>
  }

  lemma {:induction false} PrintedItemsFit(f: Renumber, j: Json, i: nat)
    requires InRange(f, j) && j.Array? && i < |j.items|
    ensures RepresentableItems(f, PrintedItems(j, i))
    decreases j, 0, |j.items| - i
  {
    PrintedFits(f, j.items[i]);
    if i + 1 < |j.items| {
      PrintedItemsFit(f, j, i + 1);
    }
  }

  lemma {:induction false} PrintedMembersFit(f: Renumber, j: Json, keys: seq<string>)
    requires InRange(f, j) && j.Object? && keys != [] && forall k :: k in keys ==> k in j.fields
    ensures RepresentableMembers(f, PrintedMembers(j, keys))
    decreases j, 0, |keys|
  {
    PrintedFits(f, j.fields[keys[0]]);
    if |keys| > 1 {
      PrintedMembersFit(f, j, keys[1..]);
    }
  }

  /** Redacting the text of a printed tree is redacting the tree. */
  lemma RedactPrinted(fold: Fold, f: Renumber, j: Json)
    requires KeepsNumbers(f) && GoodNumbers(j) && InRange(f, j)
    ensures RedactJson(fold, f, Unparse(Printed(j))).Some?
    ensures MeaningOf(RedactJson(fold, f, Unparse(Printed(j))).value) == Some(Redact(fold, Renumbered(f, j)))
  {
    PrintedMeans(j);
    OwnText(Printed(j));
    PrintedFits(f, j);
    RedactedBodyMeans(fold, f, Unparse(Printed(j)));
  }
}
