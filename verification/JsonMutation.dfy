/** The two ways a JSON body field is mutated: re-marshalling, and splicing text. */
module JsonMutation {
  import opened Basics
  import opened JsonPath
  import opened JsonSyntax
  import opened JsonTree
  import Joining

  /** Panicked stands for the write to a nil map that a null on the path leads to. */
  datatype Outcome = Done(text: string) | Rejected | Panicked

  function UnmarshalBody(body: string): Fields {
    if body == "" then FieldsOf(map[]) else Unmarshal(body)
  }

  /** An absent body counts as an empty object. */
  function BodyTree(body: string): Option<Json> {
    if body == "" then Some(Object(map[])) else MeaningOf(body)
  }

  function ChildText(m: map<string, string>, key: string): string {
    if key in m then m[key] else "{}"
  }

  function SetEscaped(body: string, path: seq<string>, value: string): Outcome
    requires path != []
    decreases |path|
  {
    match UnmarshalBody(body)
    case Malformed => Rejected
    case NilMap =>
      if |path| == 1 then Panicked
      else if SetEscaped("{}", path[1..], value).Done? then Panicked
      else SetEscaped("{}", path[1..], value)
    case FieldsOf(m) =>
      var child := if |path| == 1 then Done(Quoted(QuoteRaw(value)))
                   else SetEscaped(ChildText(m, path[0]), path[1..], value);
      match child
      case Done(raw) => Marshalled(m[path[0] := raw])
      case _ => child
  }

  function Marshalled(m: map<string, string>): Outcome {
    match Marshal(m)
    case Some(text) => Done(text)
    case None => Rejected
  }

  /** The key and raw value put into the text of the other fields, just before its closing brace. */
  function Splice(rest: string, key: string, raw: string): string
    requires rest != ""
  {
    var injected := Quoted(QuoteRaw(key)) + (":" + raw);
    if rest == "{}" then "{" + (injected + "}") else rest[..|rest| - 1] + ("," + (injected + "}"))
  }

  function MemberTail(key: string, raw: string): string {
    Quoted(QuoteRaw(key)) + (":" + raw) + "}"
  }

  function SetVerbatim(body: string, path: seq<string>, value: string): Outcome
    requires path != []
    decreases |path|
  {
    match UnmarshalBody(body)
    case Malformed => Rejected
    case NilMap =>
      var child := if |path| == 1 then Done(value) else SetVerbatim("{}", path[1..], value);
      (match child
       case Done(raw) => Done(Splice("null", path[0], raw))
       case _ => child)
    case FieldsOf(m) =>
      var child := if |path| == 1 then Done(value) else SetVerbatim(ChildText(m, path[0]), path[1..], value);
      match child
      case Done(raw) => Spliced(m, path[0], raw)
      case _ => child
  }

  function Spliced(m: map<string, string>, key: string, raw: string): Outcome {
    match Marshal(m - {key})
    case Some(rest) => if rest == "" then Rejected else Done(Splice(rest, key, raw))
    case None => Rejected
  }

  // ----- what the body unmarshals to -----

  lemma BodyFields(body: string)
    ensures match UnmarshalBody(body)
            case FieldsOf(m) => AllJson(m) && BodyTree(body) == Some(Object(Meanings(m)))
            case NilMap => BodyTree(body) == Some(Null)
            case Malformed => BodyTree(body).None? || !(BodyTree(body).value.Object? || BodyTree(body).value.Null?)
  {
    if body == "" {
      assert Meanings(map[]) == map[];
    } else {
      UnmarshalMeans(body);
    }
  }

  lemma EmptyObject()
    ensures MeaningOf("{}") == Some(Object(map[]))
  {
    OwnText(EmptyObj(""));
    assert Unparse(EmptyObj("")) == "{}";
  }

  /** The child the recursion works on is the child of the tree. */
  lemma ChildMeans(m: map<string, string>, key: string)
    requires AllJson(m)
    ensures ChildText(m, key) != "" && BodyTree(ChildText(m, key)) == Some(Child(Object(Meanings(m)), key))
  {
    EmptyObject();
    NoEmptyText();
  }

  lemma NoEmptyText()
    ensures MeaningOf("").None?
  {
  }

  lemma MeaningsSet(m: map<string, string>, key: string, raw: string)
    requires AllJson(m) && MeaningOf(raw).Some?
    ensures AllJson(m[key := raw]) && Meanings(m[key := raw]) == Meanings(m)[key := MeaningOf(raw).value]
  {
    var j := MeaningOf(raw).value;
    DenotesIff(m, Meanings(m));
    DenotesMerge(key, raw, j, m, Meanings(m));
    DenotesIff(m[key := raw], Meanings(m)[key := j]);
  }

  // ----- escaped -----

  lemma MarshalledMeans(m: map<string, string>, key: string, raw: string)
    requires AllJson(m) && MeaningOf(raw).Some?
    ensures var out := Marshalled(m[key := raw]);
            out.Done? && MeaningOf(out.text) == Some(Object(Meanings(m)[key := MeaningOf(raw).value]))
  {
    MeaningsSet(m, key, raw);
    MarshalMeans(m[key := raw]);
  }

  lemma QuotedMeans(value: string)
    ensures MeaningOf(Quoted(QuoteRaw(value))) == Some(Str(value))
  {
    QuoteRoundTrip(value);
    OwnText(Text(QuoteRaw(value)));
  }

  /** Setting a path in escaped mode succeeds exactly when nothing but objects lies on the way, and the
      resulting text then means the old tree with that path set to the string. A null on the way panics;
      any other obstacle, like a body that is not JSON, is reported as an error. */
  lemma {:induction false} EscapedSets(body: string, path: seq<string>, value: string)
    requires path != []
    ensures var tree, out := BodyTree(body), SetEscaped(body, path, value);
            if tree.None? then out.Rejected?
            else
              match Blocker(tree.value, path)
              case None => out.Done? && MeaningOf(out.text) == Some(SetPath(tree.value, path, Str(value)))
              case Some(b) => if b.Null? then out.Panicked? else out.Rejected?
    decreases |path|
  {
    BodyFields(body);
    match UnmarshalBody(body)
    case Malformed =>
    case NilMap =>
      if |path| > 1 {
        EmptyObject();
        EscapedSets("{}", path[1..], value);
      }
    case FieldsOf(m) =>
      if |path| == 1 {
        QuotedMeans(value);
        MarshalledMeans(m, path[0], Quoted(QuoteRaw(value)));
      } else {
        ChildMeans(m, path[0]);
        EscapedSets(ChildText(m, path[0]), path[1..], value);
        var child := SetEscaped(ChildText(m, path[0]), path[1..], value);
        if child.Done? {
          MarshalledMeans(m, path[0], child.text);
        }
      }
  }

  // ----- splicing -----

  function Append(ms: Members, last: Members): Members {
    MoreMembers(ms.key, ms.value, ms.after, if ms.LastMember? then last else Append(ms.rest, last))
  }

  /** The members' text with its closing brace replaced by a comma and tail. */
  function Before(ms: Members, tail: string): string {
    UnparseKey(ms.key) + (Unparse(ms.value) + (ms.after + ("," + if ms.LastMember? then tail else Before(ms.rest, tail))))
  }

  lemma MembersLong(ms: Members)
    ensures |UnparseMembers(ms)| > 1
  {
    assert |Quoted(ms.key.raw)| >= 2;
  }

  lemma {:induction false} BeforeText(ms: Members, tail: string)
    ensures var s := UnparseMembers(ms); |s| > 1 && s[..|s| - 1] + ("," + tail) == Before(ms, tail)
  {
    MembersLong(ms);
    if ms.MoreMembers? {
      BeforeText(ms.rest, tail);
      CommaCut(UnparseMembers(ms.rest), tail);
      CutLast(UnparseKey(ms.key), Unparse(ms.value), ms.after, "," + UnparseMembers(ms.rest), "," + tail);
    } else {
      assert "}"[..0] + ("," + tail) == "," + tail;
      CutLast(UnparseKey(ms.key), Unparse(ms.value), ms.after, "}", "," + tail);
    }
  }

  lemma CommaCut(s: string, tail: string)
    requires s != ""
    ensures var d := "," + s; d[..|d| - 1] + ("," + tail) == "," + (s[..|s| - 1] + ("," + tail))
  {
    assert ("," + s)[..|s|] == "," + s[..|s| - 1];
  }

  lemma CutLast(a: string, b: string, c: string, d: string, e: string)
    requires d != ""
    ensures var s := a + (b + (c + d)); s[..|s| - 1] + e == a + (b + (c + (d[..|d| - 1] + e)))
  {
    var s := a + (b + (c + d));
    assert s[..|s| - 1] == a + (b + (c + d[..|d| - 1]));
  }

  lemma {:induction false} AppendText(ms: Members, last: Members)
    ensures UnparseMembers(Append(ms, last)) == Before(ms, UnparseMembers(last))
  {
    if ms.MoreMembers? {
      AppendText(ms.rest, last);
    }
  }

  lemma MergeAssoc(a: map<string, Json>, b: map<string, Json>, c: map<string, Json>)
    ensures a + (b + c) == (a + b) + c
  {
  }

  lemma {:induction false} AppendMeans(ms: Members, last: Members)
    requires ValidMembers(ms) && ValidMembers(last)
    ensures ValidMembers(Append(ms, last)) && FieldMap(Append(ms, last)) == FieldMap(ms) + FieldMap(last)
  {
    if ms.MoreMembers? {
      AppendMeans(ms.rest, last);
      var head := map[Decode(ms.key.raw) := Meaning(ms.value)];
      assert FieldMap(Append(ms, last)) == head + FieldMap(Append(ms.rest, last));
      MergeAssoc(head, FieldMap(ms.rest), FieldMap(last));
    } else {
      assert Append(ms, last) == MoreMembers(ms.key, ms.value, ms.after, last);
      assert FieldMap(ms) == map[Decode(ms.key.raw) := Meaning(ms.value)];
    }
  }

  /** The spliced member as syntax: the raw text's own padding becomes the padding around the value. */
  lemma MemberText(key: string, a: string, v: Value, b: string)
    ensures UnparseMembers(LastMember(Key("", QuoteRaw(key), "", a), v, b))
         == Quoted(QuoteRaw(key)) + (":" + Padded(a, v, b)) + "}"
  {
    var q, u := Quoted(QuoteRaw(key)), Unparse(v);
    assert UnparseKey(Key("", QuoteRaw(key), "", a)) == q + (":" + a);
    assert (q + (":" + a)) + (u + (b + "}")) == (q + (":" + (a + (u + b)))) + "}";
  }

  lemma SplicedMember(key: string, raw: string) returns (last: Members)
    requires MeaningOf(raw).Some?
    ensures last.LastMember? && ValidMembers(last) && FieldMap(last) == map[key := MeaningOf(raw).value]
    ensures UnparseMembers(last) == MemberTail(key, raw)
  {
    var v := ParseText(raw).value;
    TextIsParsed(raw, v);
    var a, b :| AllBlank(a) && AllBlank(b) && raw == Padded(a, v, b);
    last := LastMember(Key("", QuoteRaw(key), "", a), v, b);
    QuoteRoundTrip(key);
    MemberText(key, a, v, b);
  }

  lemma ObjectText(ms: Members)
    requires ValidMembers(ms)
    ensures MeaningOf("{" + UnparseMembers(ms)) == Some(Object(FieldMap(ms)))
  {
    OwnText(Obj(ms));
  }

  lemma SpliceBefore(ms: Members, key: string, raw: string)
    ensures Splice("{" + UnparseMembers(ms), key, raw)
         == "{" + Before(ms, MemberTail(key, raw))
  {
    BeforeText(ms, MemberTail(key, raw));
    var s := "{" + UnparseMembers(ms);
    assert |s| > 2;
    assert s[..|s| - 1] == "{" + UnparseMembers(ms)[..|s| - 2];
  }

  lemma SpliceText(ms: Members, last: Members, key: string, raw: string)
    requires UnparseMembers(last) == MemberTail(key, raw)
    ensures Splice("{" + UnparseMembers(ms), key, raw) == "{" + UnparseMembers(Append(ms, last))
  {
    AppendText(ms, last);
    SpliceBefore(ms, key, raw);
  }

  /** Splicing into the text of a valid object tree. */
  lemma SpliceInto(v: Value, key: string, raw: string)
    requires Valid(v) && Meaning(v).Object? && (v.EmptyObj? ==> v.gap == "") && MeaningOf(raw).Some?
    ensures Unparse(v) != ""
    ensures MeaningOf(Splice(Unparse(v), key, raw)) == Some(Object(Meaning(v).fields + map[key := MeaningOf(raw).value]))
  {
    var last := SplicedMember(key, raw);
    match v
    case EmptyObj(_) =>
      assert Unparse(v) == "{}";
      ObjectText(last);
      assert Splice("{}", key, raw) == "{" + UnparseMembers(last);
      assert map[] + FieldMap(last) == FieldMap(last);
    case Obj(ms) =>
      SpliceText(ms, last, key, raw);
      AppendMeans(ms, last);
      ObjectText(Append(ms, last));
    case _ =>
  }

  lemma Replaced(m: map<string, string>, key: string, j: Json)
    requires AllJson(m)
    ensures AllJson(m - {key}) && Meanings(m - {key}) + map[key := j] == Meanings(m)[key := j]
  {
    var rest := m - {key};
    assert forall k :: k in rest ==> k in m && rest[k] == m[k];
  }

  /** Splicing a raw JSON value into marshalled fields gives a text meaning the fields with that value added. */
  lemma SpliceMeans(m: map<string, string>, key: string, raw: string)
    requires AllJson(m) && MeaningOf(raw).Some?
    ensures var out := Spliced(m, key, raw);
            out.Done? && MeaningOf(out.text) == Some(Object(Meanings(m)[key := MeaningOf(raw).value]))
  {
    var rest := m - {key};
    Replaced(m, key, MeaningOf(raw).value);
    MarshalTreeMeans(rest);
    SpliceInto(MarshalTree(rest), key, raw);
  }

  // ----- splicing under a null -----

  /** No text that starts like this is JSON. */
  ghost predicate Hopeless(text: string) {
    text != "" && !IsBlank(text[0]) && forall t :: ParseValue(text + t).Fail?
  }

  lemma HopelessMeansNothing(text: string)
    requires Hopeless(text)
    ensures MeaningOf(text).None?
  {
    assert text + "" == text && Blank(text) == "";
    assert ParseValue(text + "").Fail?;
  }

  lemma SplicedNull(key: string, raw: string)
    ensures Hopeless(Splice("null", key, raw))
  {
    var s := Splice("null", key, raw);
    assert s[..4] == "nul,";
    forall t ensures ParseValue(s + t).Fail? {
      assert (s + t)[0] == 'n' && (s + t)[3] == ',';
    }
  }

  lemma {:induction false} BeforeExtends(ms: Members, tail: string, t: string)
    ensures Before(ms, tail) + t == Before(ms, tail + t)
  {
    if ms.MoreMembers? {
      BeforeExtends(ms.rest, tail, t);
    }
    var d := "," + if ms.LastMember? then tail else Before(ms.rest, tail);
    Glue(UnparseKey(ms.key), Unparse(ms.value), ms.after, d, t);
    assert d + t == "," + if ms.LastMember? then tail + t else Before(ms.rest, tail + t);
  }

  lemma {:induction false} BeforeFails(ms: Members, tail: string)
    requires ValidMembers(ms) && ParseMembers(tail).Fail?
    ensures ParseMembers(Before(ms, tail)).Fail?
  {
    var next := if ms.LastMember? then tail else Before(ms.rest, tail);
    if ms.MoreMembers? {
      BeforeFails(ms.rest, tail);
    }
    var comma := "," + next;
    assert comma[1..] == next;
    MembersHead(ms, comma);
    ValueComplete(ms.value, ms.after + comma);
    StepFails(Before(ms, tail), Unparse(ms.value) + (ms.after + comma), ms.after + comma, comma, ms);
  }

  lemma StepFails(s: string, q: string, r: string, comma: string, ms: Members)
    requires ParseKey(s) == Ok(ms.key, q) && ParseValue(q) == Ok(ms.value, r)
    requires Blank(r) == ms.after && r[|ms.after|..] == comma && comma != "" && comma[0] == ','
    requires ParseMembers(comma[1..]).Fail?
    ensures ParseMembers(s).Fail?
  {
  }

  lemma TailText(key: string, raw: string, t: string)
    ensures MemberTail(key, raw) + t == UnparseKey(KeyOf(key)) + (raw + ("}" + t))
  {
    var q := Quoted(QuoteRaw(key));
    assert UnparseKey(KeyOf(key)) == q + ":";
    assert q + (":" + raw) + "}" + t == (q + ":") + (raw + ("}" + t));
  }

  lemma KeyThenFails(s: string, k: Key, q: string)
    requires ParseKey(s) == Ok(k, q) && ParseValue(q).Fail?
    ensures ParseMembers(s).Fail?
  {
  }

  lemma MemberFails(key: string, raw: string, t: string)
    requires Hopeless(raw)
    ensures ParseMembers(MemberTail(key, raw) + t).Fail?
  {
    var q := raw + ("}" + t);
    QuoteRoundTrip(key);
    KeyComplete(KeyOf(key), q);
    TailText(key, raw, t);
    assert ParseValue(q).Fail?;
    KeyThenFails(MemberTail(key, raw) + t, KeyOf(key), q);
  }

  lemma ObjectFails(u: string)
    requires ParseMembers(u).Fail? && |Blank(u)| < |u| && u[|Blank(u)|] != '}'
    ensures ParseValue("{" + u).Fail?
  {
    assert ("{" + u)[1..] == u;
    assert ParseObject(u).Fail?;
  }

  lemma TailStarts(key: string, raw: string, t: string)
    ensures var u := MemberTail(key, raw) + t; |Blank(u)| < |u| && u[|Blank(u)|] != '}'
  {
    assert (MemberTail(key, raw) + t)[0] == '"';
  }

  lemma BeforeStarts(ms: Members, tail: string)
    requires ValidMembers(ms)
    ensures var u := Before(ms, tail); |Blank(u)| < |u| && u[|Blank(u)|] != '}'
  {
    var k := ms.key;
    var more := Unparse(ms.value) + (ms.after + ("," + if ms.LastMember? then tail else Before(ms.rest, tail)));
    var name := Quoted(k.raw) + (k.colon + (":" + k.gap));
    assert Before(ms, tail) == k.before + (name + more);
    BlankComplete(k.before, name + more);
  }

  lemma AloneText(key: string, raw: string, t: string)
    ensures Splice("{}", key, raw) + t == "{" + (MemberTail(key, raw) + t)
  {
  }

  lemma SplicedAlone(key: string, raw: string, t: string)
    requires Hopeless(raw)
    ensures ParseValue(Splice("{}", key, raw) + t).Fail?
  {
    MemberFails(key, raw, t);
    TailStarts(key, raw, t);
    ObjectFails(MemberTail(key, raw) + t);
    AloneText(key, raw, t);
  }

  lemma Extend(a: string, b: string, t: string)
    ensures (a + b) + t == a + (b + t)
  {
  }

  lemma AmongText(ms: Members, key: string, raw: string, t: string)
    ensures Splice("{" + UnparseMembers(ms), key, raw) + t == "{" + Before(ms, MemberTail(key, raw) + t)
  {
    SpliceBefore(ms, key, raw);
    BeforeExtends(ms, MemberTail(key, raw), t);
    Extend("{", Before(ms, MemberTail(key, raw)), t);
  }

  lemma SplicedAmong(ms: Members, key: string, raw: string, t: string)
    requires ValidMembers(ms) && Hopeless(raw)
    ensures ParseValue(Splice("{" + UnparseMembers(ms), key, raw) + t).Fail?
  {
    var tail := MemberTail(key, raw) + t;
    MemberFails(key, raw, t);
    BeforeFails(ms, tail);
    BeforeStarts(ms, tail);
    ObjectFails(Before(ms, tail));
    AmongText(ms, key, raw, t);
  }

  /** A hopeless value makes every object it is spliced into hopeless. */
  lemma SplicedHopeless(v: Value, key: string, raw: string)
    requires Valid(v) && Meaning(v).Object? && (v.EmptyObj? ==> v.gap == "") && Hopeless(raw)
    ensures Unparse(v) != "" && Hopeless(Splice(Unparse(v), key, raw))
  {
    forall t ensures ParseValue(Splice(Unparse(v), key, raw) + t).Fail? {
      if v.EmptyObj? {
        assert Unparse(v) == "{}";
        SplicedAlone(key, raw, t);
      } else {
        SplicedAmong(v.members, key, raw, t);
      }
    }
    SpliceStarts(v, key, raw);
  }

  lemma SpliceStarts(v: Value, key: string, raw: string)
    requires v.EmptyObj? || v.Obj?
    ensures Unparse(v) != "" && Splice(Unparse(v), key, raw) != "" && Splice(Unparse(v), key, raw)[0] == '{'
  {
    if v.Obj? {
      SpliceBefore(v.members, key, raw);
    }
  }

  /** Splicing agrees with the tree, under the same condition as in escaped mode: with a value text that is
      itself JSON, the verbatim result means the old tree with that value at the path exactly when only
      objects lie on the way. Under a null the result is no JSON text at all; other obstacles are errors. */
  lemma {:induction false} VerbatimSets(body: string, path: seq<string>, value: string)
    requires path != [] && MeaningOf(value).Some?
    ensures var tree, out := BodyTree(body), SetVerbatim(body, path, value);
            if tree.None? then out.Rejected?
            else
              match Blocker(tree.value, path)
              case None => out.Done? && MeaningOf(out.text) == Some(SetPath(tree.value, path, MeaningOf(value).value))
              case Some(b) => if b.Null? then out.Done? && Hopeless(out.text) else out.Rejected?
    decreases |path|
  {
    BodyFields(body);
    match UnmarshalBody(body)
    case Malformed =>
    case NilMap =>
      EmptyObject();
      if |path| == 1 {
        SplicedNull(path[0], value);
      } else {
        VerbatimSets("{}", path[1..], value);
        SplicedNull(path[0], SetVerbatim("{}", path[1..], value).text);
      }
    case FieldsOf(m) =>
      if |path| == 1 {
        SpliceMeans(m, path[0], value);
      } else {
        ChildMeans(m, path[0]);
        VerbatimSets(ChildText(m, path[0]), path[1..], value);
        SplicedChild(m, path[0], SetVerbatim(ChildText(m, path[0]), path[1..], value));
      }
  }

  lemma SplicedChild(m: map<string, string>, key: string, child: Outcome)
    requires AllJson(m)
    ensures child.Done? && MeaningOf(child.text).Some? ==>
              var out := Spliced(m, key, child.text);
              out.Done? && MeaningOf(out.text) == Some(Object(Meanings(m)[key := MeaningOf(child.text).value]))
    ensures child.Done? && Hopeless(child.text) ==>
              var out := Spliced(m, key, child.text); out.Done? && Hopeless(out.text)
  {
    if child.Done? && MeaningOf(child.text).Some? {
      SpliceMeans(m, key, child.text);
    }
    if child.Done? && Hopeless(child.text) {
      Replaced(m, key, Null);
      MarshalTreeMeans(m - {key});
      SplicedHopeless(MarshalTree(m - {key}), key, child.text);
    }
  }

  /** The textual form agrees with the structural one: splicing the encoded string is setting the string. */
  lemma VerbatimAgreesWithEscaped(body: string, path: seq<string>, value: string)
    requires path != [] && BodyTree(body).Some? && Blocker(BodyTree(body).value, path).None?
    ensures var e, v := SetEscaped(body, path, value), SetVerbatim(body, path, Quoted(QuoteRaw(value)));
            e.Done? && v.Done? && MeaningOf(e.text) == MeaningOf(v.text)
  {
    QuotedMeans(value);
    EscapedSets(body, path, value);
    VerbatimSets(body, path, Quoted(QuoteRaw(value)));
  }

  // ----- verbatim mode for any payload, JSON or not -----

  /** Whatever the payload, it stands unchanged between the same two texts. */
  ghost predicate Framed(body: string, path: seq<string>, pre: string, post: string)
    requires path != []
  {
    forall value :: SetVerbatim(body, path, value) == Done(pre + value + post)
  }

  ghost predicate AlwaysRejected(body: string, path: seq<string>)
    requires path != []
  {
    forall value :: SetVerbatim(body, path, value).Rejected?
  }

  /** The text the new member is spliced into: the other fields, or null. */
  function RestText(body: string, key: string): string {
    match UnmarshalBody(body)
    case Malformed => ""
    case NilMap => "null"
    case FieldsOf(m) => (match Marshal(m - {key}) case Some(rest) => rest case None => "")
  }

  lemma RestTextExists(body: string, key: string)
    requires !UnmarshalBody(body).Malformed?
    ensures RestText(body, key) != ""
  {
    BodyFields(body);
    match UnmarshalBody(body)
    case NilMap =>
    case FieldsOf(m) =>
      Replaced(m, key, Null);
      MarshalTreeMeans(m - {key});
      SpliceStarts(MarshalTree(m - {key}), key, "");
  }

  /** What one level of the recursion works on. */
  function ChildOf(body: string, key: string): string {
    if UnmarshalBody(body).FieldsOf? then ChildText(UnmarshalBody(body).m, key) else "{}"
  }

  /** One level: the payload itself, or the child's result, is spliced in. */
  lemma VerbatimLevel(body: string, path: seq<string>, value: string)
    requires path != []
    ensures UnmarshalBody(body).Malformed? ==> SetVerbatim(body, path, value).Rejected?
    ensures !UnmarshalBody(body).Malformed? ==>
              var rest := RestText(body, path[0]);
              rest != "" && if |path| == 1 then SetVerbatim(body, path, value) == Done(Splice(rest, path[0], value))
                 else match SetVerbatim(ChildOf(body, path[0]), path[1..], value)
                      case Done(raw) => SetVerbatim(body, path, value) == Done(Splice(rest, path[0], raw))
                      case other => SetVerbatim(body, path, value) == other
  {
    if !UnmarshalBody(body).Malformed? {
      RestTextExists(body, path[0]);
      BodyFields(body);
    }
  }

  function SpliceStart(rest: string, key: string): string
    requires rest != ""
  {
    (if rest == "{}" then "{" else rest[..|rest| - 1] + ",") + (Quoted(QuoteRaw(key)) + ":")
  }

  lemma SpliceFrame(rest: string, key: string, raw: string)
    requires rest != ""
    ensures Splice(rest, key, raw) == SpliceStart(rest, key) + raw + "}"
  {
    var k := Quoted(QuoteRaw(key));
    assert (k + (":" + raw)) + "}" == (k + ":") + raw + "}";
    if rest != "{}" {
      var start := rest[..|rest| - 1];
      assert start + ("," + ((k + (":" + raw)) + "}")) == (start + ",") + (k + ":") + raw + "}";
    }
  }

  lemma Nested(pre: string, before: string, value: string, after: string)
    ensures pre + (before + value + after) + "}" == (pre + before) + value + (after + "}")
  {
  }

  /** The payload stands in the result as it is, and whether there is a result does not depend on it. */
  lemma {:induction false} VerbatimFrame(body: string, path: seq<string>) returns (pre: string, post: string)
    requires path != []
    ensures Framed(body, path, pre, post) || AlwaysRejected(body, path)
    decreases |path|
  {
    pre, post := "", "";
    if UnmarshalBody(body).Malformed? {
      forall value ensures SetVerbatim(body, path, value).Rejected? { VerbatimLevel(body, path, value); }
    } else {
      RestTextExists(body, path[0]);
      var rest := RestText(body, path[0]);
      pre, post := SpliceStart(rest, path[0]), "}";
      if |path| == 1 {
        forall value ensures SetVerbatim(body, path, value) == Done(pre + value + post) {
          VerbatimLevel(body, path, value);
          SpliceFrame(rest, path[0], value);
        }
      } else {
        pre, post := VerbatimBelow(body, path, rest);
      }
    }
  }

  lemma {:induction false} VerbatimBelow(body: string, path: seq<string>, rest: string) returns (pre: string, post: string)
    requires |path| > 1 && !UnmarshalBody(body).Malformed? && rest == RestText(body, path[0]) != ""
    ensures Framed(body, path, pre, post) || AlwaysRejected(body, path)
    decreases |path|, 0
  {
    var child := ChildOf(body, path[0]);
    var before, after := VerbatimFrame(child, path[1..]);
    pre, post := SpliceStart(rest, path[0]) + before, after + "}";
    if Framed(child, path[1..], before, after) {
      forall value ensures SetVerbatim(body, path, value) == Done(pre + value + post) {
        VerbatimLevel(body, path, value);
        assert SetVerbatim(child, path[1..], value) == Done(before + value + after);
        SpliceFrame(rest, path[0], before + value + after);
        Nested(SpliceStart(rest, path[0]), before, value, after);
      }
    } else {
      forall value ensures SetVerbatim(body, path, value).Rejected? {
        VerbatimLevel(body, path, value);
        assert SetVerbatim(child, path[1..], value).Rejected?;
      }
    }
  }

  /** The verbatim update for every payload, JSON or not: it fails exactly when the body is no JSON or a value
      other than an object or null lies on the path; otherwise the result is the payload, unchanged, between two
      texts that body and path alone determine. */
  lemma VerbatimKeepsPayload(body: string, path: seq<string>)
    requires path != []
    ensures var tree := BodyTree(body);
            if tree.None? || (Blocker(tree.value, path).Some? && !Blocker(tree.value, path).value.Null?)
            then forall value :: SetVerbatim(body, path, value).Rejected?
            else exists pre: string, post: string :: Framed(body, path, pre, post)
  {
    var pre, post := VerbatimFrame(body, path);
    QuotedMeans("");
    VerbatimSets(body, path, Quoted(QuoteRaw("")));
    assert SetVerbatim(body, path, Quoted(QuoteRaw(""))).Rejected? <==> AlwaysRejected(body, path) && !Framed(body, path, pre, post);
  }

  /** With no body yet and one segment the result is the object of that one member. */
  lemma VerbatimAlone(key: string, value: string)
    ensures SetVerbatim("", [key], value) == Done("{" + Quoted(QuoteRaw(key)) + ":" + value + "}")
  {
    VerbatimLevel("", [key], value);
    var none: map<string, string> := map[];
    assert none - {key} == none;
    assert Unparse(MarshalTree(none)) == "{}";
    SpliceFrame("{}", key, value);
    assert "{" + (Quoted(QuoteRaw(key)) + ":") + value + "}" == "{" + Quoted(QuoteRaw(key)) + ":" + value + "}";
  }

  // ----- the JSON location of a mutation -----

  /** The parameter read as a dot-path; its first segment must not be empty. */
  function ApplyJson(body: string, parameter: string, value: string, verbatim: bool): Outcome {
    var path := Joining.Split(parameter, '.');
    if path[0] == "" then Rejected
    else if verbatim then SetVerbatim(body, path, value)
    else SetEscaped(body, path, value)
  }

  /** Mutating a field named by joined segments changes what Lookup finds at that path to the payload,
      and at every other path that does not lie along it leaves it as it was. */
  lemma ApplyJsonSetsOnly(body: string, path: seq<string>, value: string, q: seq<string>)
    requires path != [] && path[0] != "" && Joining.AllFree(path, '.')
    requires BodyTree(body).Some? && Blocker(BodyTree(body).value, path).None?
    ensures var out := ApplyJson(body, Joining.Join(path, '.'), value, false);
            out.Done? && MeaningOf(out.text).Some?
            && Lookup(MeaningOf(out.text).value, path) == Some(Str(value))
            && (!(path <= q) && !(q <= path) ==>
                  Lookup(MeaningOf(out.text).value, q) == Lookup(BodyTree(body).value, q))
  {
    Joining.SplitJoin(path, '.');
    EscapedSets(body, path, value);
    SetThenLookup(BodyTree(body).value, path, Str(value), []);
    assert path + [] == path;
    if !(path <= q) && !(q <= path) {
      SetFrame(BodyTree(body).value, path, Str(value), q);
    }
  }

  /** Mutating the named field verbatim puts the payload, JSON or not, between two fixed texts, and when it is
      JSON the result means the old tree with that value at the path. */
  lemma ApplyJsonVerbatim(body: string, path: seq<string>, value: string)
    requires path != [] && path[0] != "" && Joining.AllFree(path, '.')
    requires BodyTree(body).Some? && Blocker(BodyTree(body).value, path).None?
    ensures exists pre: string, post: string :: Framed(body, path, pre, post)
              && ApplyJson(body, Joining.Join(path, '.'), value, true) == Done(pre + value + post)
    ensures MeaningOf(value).Some? ==>
              var out := ApplyJson(body, Joining.Join(path, '.'), value, true);
              out.Done? && MeaningOf(out.text) == Some(SetPath(BodyTree(body).value, path, MeaningOf(value).value))
  {
    Joining.SplitJoin(path, '.');
    VerbatimKeepsPayload(body, path);
    if MeaningOf(value).Some? {
      VerbatimSets(body, path, value);
    }
  }

  lemma NullTree(body: string)
    requires body == "{\"a\":null}"
    ensures MeaningOf(body) == Some(Object(map["a" := Null]))
  {
    var v := Obj(LastMember(Key("", "a", "", ""), Word("null"), ""));
    assert Unparse(v) == body;
    assert Decode("a") == "a";
    assert map["a" := Null] + map[] == map["a" := Null];
    OwnText(v);
  }

  lemma NullBlocks()
    ensures Blocker(Object(map["a" := Null]), ["a", "b"]) == Some(Null)
  {
    var path, tree := ["a", "b"], Object(map["a" := Null]);
    assert path[1..] == ["b"];
    assert Blocker(tree, path) == Blocker(tree.fields["a"], path[1..]);
  }

  /** The body {"a":null} and the path a.b: the escaped update panics, and the verbatim one returns a text that
      is no JSON. */
  lemma NullBody(body: string, value: string)
    requires body == "{\"a\":null}" && MeaningOf(value).Some?
    ensures SetEscaped(body, ["a", "b"], value).Panicked?
    ensures var out := SetVerbatim(body, ["a", "b"], value); out.Done? && MeaningOf(out.text).None?
  {
    NullTree(body);
    NullBlocks();
    EscapedSets(body, ["a", "b"], value);
    VerbatimSets(body, ["a", "b"], value);
    HopelessMeansNothing(SetVerbatim(body, ["a", "b"], value).text);
  }
}
