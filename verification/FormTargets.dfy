/** From an endpoint's discovered parameters to targets, and from a target to the request its mutations start
    from: what a mutated form submission carries. Which names are security tokens is a parameter. */
module FormTargets {
  import opened Basics
  import opened MutationRequest
  import opened UrlValues
  import Joining

  datatype Parameter = Parameter(name: string, value: string, segmentIndex: int)

  /** query is what the target's own URL carries. */
  datatype Target = Target(
    httpMethod: string, path: string, query: Values, parameter: string, location: string,
    segmentIndex: int, formFields: map<string, string>)

  /** One endpoint's parameters, by location. */
  datatype Discovered = Discovered(
    query: seq<Parameter>, json: seq<Parameter>, form: seq<Parameter>, path: seq<Parameter>)

  // ----- fieldValues -----

  /** The last value of every name. */
  function FieldMap(params: seq<Parameter>): map<string, string>
    decreases |params|
  {
    if params == [] then map[]
    else FieldMap(params[..|params| - 1])[params[|params| - 1].name := params[|params| - 1].value]
  }

  method FieldValues(params: seq<Parameter>) returns (fields: map<string, string>)
    ensures fields == FieldMap(params)
  {
    fields := map[];
    for i := 0 to |params|
      invariant fields == FieldMap(params[..i])
    {
      assert params[..i + 1][..i] == params[..i];
      fields := fields[params[i].name := params[i].value];
    }
    assert params[..|params|] == params;
  }

  lemma {:induction false} FieldNames(params: seq<Parameter>, name: string)
    ensures name in FieldMap(params) <==> exists i :: 0 <= i < |params| && params[i].name == name
    decreases |params|
  {
    if params != [] {
      var n := |params| - 1;
      FieldNames(params[..n], name);
      assert params[n].name == name || (exists i :: 0 <= i < n && params[i].name == name)
             <==> exists i :: 0 <= i < |params| && params[i].name == name;
    }
  }

  /** Of repeated names the last one counts. */
  lemma {:induction false} LastValueCounts(params: seq<Parameter>, i: nat)
    requires i < |params| && forall j :: i < j < |params| ==> params[j].name != params[i].name
    ensures params[i].name in FieldMap(params) && FieldMap(params)[params[i].name] == params[i].value
    decreases |params|
  {
    var n := |params| - 1;
    if i < n {
      LastValueCounts(params[..n], i);
    }
  }

  // ----- endpointTargets -----

  function TargetFor(root: Target, p: Parameter, location: string, fields: map<string, string>): Target {
    root.(parameter := p.name, location := location, formFields := fields,
          segmentIndex := if location == "path" then p.segmentIndex else root.segmentIndex)
  }

  function TargetsFor(root: Target, params: seq<Parameter>, location: string, fields: map<string, string>,
                      skip: string -> bool): seq<Target>
    decreases |params|
  {
    if params == [] then []
    else
      var n := |params| - 1;
      var rest := TargetsFor(root, params[..n], location, fields, skip);
      if skip(params[n].name) then rest else rest + [TargetFor(root, params[n], location, fields)]
  }

  method AddTargets(root: Target, params: seq<Parameter>, location: string, fields: map<string, string>,
                    skip: string -> bool, before: seq<Target>) returns (targets: seq<Target>)
    ensures targets == before + TargetsFor(root, params, location, fields, skip)
  {
    targets := before;
    for i := 0 to |params|
      invariant targets == before + TargetsFor(root, params[..i], location, fields, skip)
    {
      assert params[..i + 1][..i] == params[..i];
      if skip(params[i].name) {
        continue;
      }
      targets := targets + [TargetFor(root, params[i], location, fields)];
    }
    assert params[..|params|] == params;
  }

  function QueryTargets(root: Target, fromForm: bool, routable: bool, d: Discovered, isToken: string -> bool): seq<Target> {
    if fromForm && !routable then []
    else TargetsFor(root, d.query, "query", if fromForm then FieldMap(d.query) else map[], name => fromForm && isToken(name))
  }

  function FormTargetsOf(root: Target, routable: bool, d: Discovered, isToken: string -> bool): seq<Target> {
    if !routable || d.form == [] then [] else TargetsFor(root, d.form, "form", FieldMap(d.form), isToken)
  }

  function EndpointTargets(root: Target, fromForm: bool, routable: bool, d: Discovered, isToken: string -> bool): seq<Target> {
    [root] + QueryTargets(root, fromForm, routable, d, isToken)
    + TargetsFor(root, d.json, "body", map[], _ => false)
    + FormTargetsOf(root, routable, d, isToken)
    + TargetsFor(root, d.path, "path", map[], _ => false)
  }

  /** routable is false for a form whose action names an origin that cannot be parsed. */
  method BuildEndpointTargets(root: Target, fromForm: bool, routable: bool, d: Discovered, isToken: string -> bool)
    returns (targets: seq<Target>)
    ensures targets == EndpointTargets(root, fromForm, routable, d, isToken)
  {
    targets := [root];
    if !fromForm || routable {
      var fields: map<string, string> := map[];
      if fromForm {
        fields := FieldValues(d.query);
      }
      targets := AddTargets(root, d.query, "query", fields, name => fromForm && isToken(name), targets);
    }
    targets := AddTargets(root, d.json, "body", map[], _ => false, targets);
    if routable && |d.form| > 0 {
      var fields := FieldValues(d.form);
      targets := AddTargets(root, d.form, "form", fields, isToken, targets);
    }
    targets := AddTargets(root, d.path, "path", map[], _ => false, targets);
  }

  /** t was built from one of params that is not skipped. */
  ghost predicate BuiltFrom(root: Target, params: seq<Parameter>, location: string, fields: map<string, string>,
                            skip: string -> bool, t: Target)
  {
    exists i :: 0 <= i < |params| && !skip(params[i].name) && t == TargetFor(root, params[i], location, fields)
  }

  lemma {:induction false} TargetsForIff(root: Target, params: seq<Parameter>, location: string, fields: map<string, string>,
                                         skip: string -> bool, t: Target)
    ensures t in TargetsFor(root, params, location, fields, skip) <==> BuiltFrom(root, params, location, fields, skip, t)
    decreases |params|
  {
    if params != [] {
      var n := |params| - 1;
      TargetsForIff(root, params[..n], location, fields, skip, t);
      BuiltFromSnoc(root, params[..n], params[n], location, fields, skip, t);
      assert params == params[..n] + [params[n]];
    }
  }

  lemma BuiltFromSnoc(root: Target, pre: seq<Parameter>, p: Parameter, location: string, fields: map<string, string>,
                      skip: string -> bool, t: Target)
    ensures BuiltFrom(root, pre + [p], location, fields, skip, t)
       <==> BuiltFrom(root, pre, location, fields, skip, t)
            || (!skip(p.name) && t == TargetFor(root, p, location, fields))
  {
    var all := pre + [p];
    if BuiltFrom(root, pre, location, fields, skip, t) {
      var i :| 0 <= i < |pre| && !skip(pre[i].name) && t == TargetFor(root, pre[i], location, fields);
      assert all[i] == pre[i];
    }
    assert all[|pre|] == p;
  }

  /** The list holds the endpoint itself and exactly the targets of those parameters that can be submitted
      and are not, in a form, security tokens. */
  lemma EndpointTargetsIff(root: Target, fromForm: bool, routable: bool, d: Discovered, isToken: string -> bool, t: Target)
    ensures t in EndpointTargets(root, fromForm, routable, d, isToken)
       <==> || t == root
            || ((!fromForm || routable)
                && BuiltFrom(root, d.query, "query", if fromForm then FieldMap(d.query) else map[],
                             name => fromForm && isToken(name), t))
            || BuiltFrom(root, d.json, "body", map[], _ => false, t)
            || (routable && BuiltFrom(root, d.form, "form", FieldMap(d.form), isToken, t))
            || BuiltFrom(root, d.path, "path", map[], _ => false, t)
  {
    TargetsForIff(root, d.query, "query", if fromForm then FieldMap(d.query) else map[], name => fromForm && isToken(name), t);
    TargetsForIff(root, d.json, "body", map[], _ => false, t);
    TargetsForIff(root, d.form, "form", FieldMap(d.form), isToken, t);
    TargetsForIff(root, d.path, "path", map[], _ => false, t);
    assert t in QueryTargets(root, fromForm, routable, d, isToken)
      <==> (!fromForm || routable)
           && t in TargetsFor(root, d.query, "query", if fromForm then FieldMap(d.query) else map[], name => fromForm && isToken(name));
    assert t in FormTargetsOf(root, routable, d, isToken)
      <==> routable && t in TargetsFor(root, d.form, "form", FieldMap(d.form), isToken);
  }

  /** No form field is forgotten: every parameter of a routable form that is no security token has a target,
      and that target carries the whole form. */
  lemma FormTargetsComplete(root: Target, fromForm: bool, routable: bool, d: Discovered, isToken: string -> bool, i: nat)
    requires routable && i < |d.form| && !isToken(d.form[i].name)
    ensures exists t :: t in EndpointTargets(root, fromForm, routable, d, isToken)
                        && t.location == "form" && t.parameter == d.form[i].name && t.formFields == FieldMap(d.form)
  {
    var t := TargetFor(root, d.form[i], "form", FieldMap(d.form));
    assert BuiltFrom(root, d.form, "form", FieldMap(d.form), isToken, t);
    EndpointTargetsIff(root, fromForm, routable, d, isToken, t);
  }

  lemma {:induction false} TargetsForMembers(root: Target, params: seq<Parameter>, location: string, fields: map<string, string>,
                                             skip: string -> bool, t: Target)
    requires t in TargetsFor(root, params, location, fields, skip)
    ensures t.location == location && t.formFields == fields && !skip(t.parameter) && t.query == root.query
    ensures exists i :: 0 <= i < |params| && params[i].name == t.parameter
    decreases |params|
  {
    var n := |params| - 1;
    if t in TargetsFor(root, params[..n], location, fields, skip) {
      TargetsForMembers(root, params[..n], location, fields, skip, t);
      var i :| 0 <= i < n && params[..n][i].name == t.parameter;
      assert params[i].name == t.parameter;
    }
  }

  /** Every form target was built from a form parameter and carries all of the endpoint's form fields. */
  lemma FormTargetFacts(root: Target, fromForm: bool, routable: bool, d: Discovered, isToken: string -> bool, t: Target)
    requires root.location == "" && t in EndpointTargets(root, fromForm, routable, d, isToken) && t.location == "form"
    ensures t.formFields == FieldMap(d.form) && t.parameter in t.formFields && !isToken(t.parameter)
  {
    if t in QueryTargets(root, fromForm, routable, d, isToken) {
      TargetsForMembers(root, d.query, "query", if fromForm then FieldMap(d.query) else map[], name => fromForm && isToken(name), t);
    }
    if t in TargetsFor(root, d.json, "body", map[], _ => false) {
      TargetsForMembers(root, d.json, "body", map[], _ => false, t);
    }
    if t in TargetsFor(root, d.path, "path", map[], _ => false) {
      TargetsForMembers(root, d.path, "path", map[], _ => false, t);
    }
    assert t in FormTargetsOf(root, routable, d, isToken);
    TargetsForMembers(root, d.form, "form", FieldMap(d.form), isToken, t);
    FieldNames(d.form, t.parameter);
  }

  lemma QueryTargetFacts(root: Target, routable: bool, d: Discovered, isToken: string -> bool, t: Target)
    requires root.location == "" && t in EndpointTargets(root, true, routable, d, isToken) && t.location == "query"
    ensures t.formFields == FieldMap(d.query) && t.parameter in t.formFields && !isToken(t.parameter) && t.query == root.query
  {
    if t in TargetsFor(root, d.json, "body", map[], _ => false) {
      TargetsForMembers(root, d.json, "body", map[], _ => false, t);
    }
    if t in FormTargetsOf(root, routable, d, isToken) {
      TargetsForMembers(root, d.form, "form", FieldMap(d.form), isToken, t);
    }
    if t in TargetsFor(root, d.path, "path", map[], _ => false) {
      TargetsForMembers(root, d.path, "path", map[], _ => false, t);
    }
    assert t in QueryTargets(root, true, routable, d, isToken);
    TargetsForMembers(root, d.query, "query", FieldMap(d.query), name => true && isToken(name), t);
    FieldNames(d.query, t.parameter);
  }

  // ----- NewMutationRequest -----

  function ToValues(fields: map<string, string>): Values {
    map name | name in fields :: [fields[name]]
  }

  function Get(v: Values, name: string): string {
    if name in v && v[name] != [] then v[name][0] else ""
  }

  /** The query with the named form fields filled in where it has no non-empty value for them. */
  function SeededOn(query: Values, fields: map<string, string>, names: set<string>): Values
    requires names <= fields.Keys
  {
    map name | name in query.Keys + names ::
      if name in names && Get(query, name) == "" then [fields[name]] else query[name]
  }

  function Seeded(query: Values, fields: map<string, string>): Values {
    SeededOn(query, fields, fields.Keys)
  }

  lemma SeedOne(query: Values, fields: map<string, string>, names: set<string>, name: string)
    requires names <= fields.Keys && name in fields && name !in names
    ensures var v := SeededOn(query, fields, names);
            Get(v, name) == Get(query, name)
            && SeededOn(query, fields, names + {name}) == if Get(query, name) == "" then v[name := [fields[name]]] else v
  {
    var v := SeededOn(query, fields, names);
    assert name in v <==> name in query;
    assert name in query ==> v[name] == query[name];
  }

  /** Fields are visited in an arbitrary order. */
  method SeedQuery(query: Values, fields: map<string, string>) returns (seeded: Values)
    ensures seeded == Seeded(query, fields)
  {
    seeded := query;
    var rest := fields.Keys;
    ghost var done: set<string> := {};
    SeedNone(query, fields);
    while rest != {}
      invariant done + rest == fields.Keys && done !! rest && seeded == SeededOn(query, fields, done)
      decreases |rest|
    {
      var name :| name in rest;
      SeedOne(query, fields, done, name);
      MoveOne(done, rest, name);
      if Get(seeded, name) == "" {
        seeded := seeded[name := [fields[name]]];
      }
      rest, done := rest - {name}, done + {name};
    }
    assert done == fields.Keys;
  }

  lemma MoveOne(done: set<string>, rest: set<string>, name: string)
    requires done !! rest && name in rest
    ensures (done + {name}) + (rest - {name}) == done + rest && (done + {name}) !! (rest - {name})
    ensures |rest - {name}| < |rest|
  {
    assert rest == (rest - {name}) + {name};
  }

  lemma SeedNone(query: Values, fields: map<string, string>)
    ensures SeededOn(query, fields, {}) == query
  {
  }

  /** The unmutated request of a target. */
  function Baseline(t: Target): Content {
    var plain := Content(t.path, t.query, None, map[], [], "", "", false, "");
    if t.formFields == map[] then plain
    else if t.location == "form" then
      plain.(body := Encode(ToValues(t.formFields)), contentType := "application/x-www-form-urlencoded")
    else if t.location == "query" then plain.(query := Seeded(t.query, t.formFields))
    else plain
  }

  ghost predicate ByteParameters(params: seq<Parameter>) {
    forall i :: 0 <= i < |params| ==> Bytes(params[i].name) && Bytes(params[i].value)
  }

  lemma {:induction false} FieldBytes(params: seq<Parameter>)
    requires ByteParameters(params)
    ensures forall name :: name in FieldMap(params) ==> Bytes(name) && Bytes(FieldMap(params)[name])
    decreases |params|
  {
    if params != [] {
      FieldBytes(params[..|params| - 1]);
    }
  }

  lemma ToValuesFacts(fields: map<string, string>)
    requires forall name :: name in fields ==> Bytes(name) && Bytes(fields[name])
    ensures ByteValues(ToValues(fields)) && NonEmpty(ToValues(fields)) == ToValues(fields)
  {
  }

  /** End to end: mutating the request of any form target sends a body that decodes to all the endpoint's form
      fields with exactly the target's own replaced by the payload, and that one is never a security token. */
  lemma FormSubmissionKeepsSiblings(lib: Library, root: Target, fromForm: bool, routable: bool, d: Discovered,
                                    isToken: string -> bool, t: Target, id: string, payload: string, policy: Policy)
    requires root.location == "" && ByteParameters(d.form) && Bytes(payload)
    requires t in EndpointTargets(root, fromForm, routable, d, isToken) && t.location == "form"
    ensures !isToken(t.parameter) && t.parameter in FieldMap(d.form)
    ensures var r := Mutated(lib, Baseline(t), Mutation(id, Form, t.parameter, payload, false, 0), policy);
            r.Done? && Decode(r.content.body) == Some(ToValues(FieldMap(d.form))[t.parameter := [payload]])
  {
    FormTargetFacts(root, fromForm, routable, d, isToken, t);
    FieldBytes(d.form);
    ToValuesFacts(t.formFields);
    var v := ToValues(t.formFields);
    EncodeRoundTrip(v);
    assert Baseline(t).body == Encode(v);
    BaselineDecodes(t, v);
    FormSets(Encode(v), t.parameter, payload);
  }

  lemma EmptyDecodes()
    ensures Decode("") == Some(map[])
  {
    assert Joining.Split("", '&') == [""];
    assert [""][..0] == [];
  }

  lemma BaselineDecodes(t: Target, v: Values)
    requires ByteValues(v) && NonEmpty(v) == v && v.Keys != {}
    ensures Encode(v) != "" && Bytes(Encode(v)) && Decode(Encode(v)) == Some(v)
  {
    EncodeRoundTrip(v);
    EncodeBytes(v);
    EmptyDecodes();
  }

  /** The same for a form submitted in the query: every field the form has is sent, the target's own replaced. */
  lemma QuerySubmissionKeepsSiblings(lib: Library, root: Target, routable: bool, d: Discovered, isToken: string -> bool,
                                     t: Target, id: string, payload: string, policy: Policy, name: string)
    requires root.location == "" && ByteValues(root.query) && ByteParameters(d.query) && Bytes(payload)
    requires t in EndpointTargets(root, true, routable, d, isToken) && t.location == "query"
    requires name in FieldMap(d.query)
    ensures !isToken(t.parameter)
    ensures var r := Mutated(lib, Baseline(t), Mutation(id, Query, t.parameter, payload, false, 0), policy);
            r.Done? && Decode(QueryText(r.content)).Some?
            && Get(Decode(QueryText(r.content)).value, name)
               == if name == t.parameter then payload
                  else if Get(root.query, name) != "" then Get(root.query, name) else FieldMap(d.query)[name]
  {
    QueryTargetFacts(root, routable, d, isToken, t);
    FieldBytes(d.query);
    SeededBytes(root.query, t.formFields);
    QuerySets(lib, Baseline(t), Mutation(id, Query, t.parameter, payload, false, 0), policy);
  }

  lemma SeededBytes(query: Values, fields: map<string, string>)
    requires ByteValues(query) && forall name :: name in fields ==> Bytes(name) && Bytes(fields[name])
    ensures ByteValues(Seeded(query, fields))
  {
  }

  /** A path target points at the segment its parameter was discovered in. */
  lemma PathTargetFacts(root: Target, fromForm: bool, routable: bool, d: Discovered, isToken: string -> bool, t: Target)
    requires root.location == "" && t in EndpointTargets(root, fromForm, routable, d, isToken) && t.location == "path"
    ensures t.path == root.path && t.query == root.query && t.formFields == map[]
    ensures exists i :: 0 <= i < |d.path| && d.path[i].name == t.parameter && d.path[i].segmentIndex == t.segmentIndex
  {
    EndpointTargetsIff(root, fromForm, routable, d, isToken, t);
    if i :| 0 <= i < |d.path| && t == TargetFor(root, d.path[i], "path", map[]) {
      assert d.path[i].name == t.parameter;
    }
  }

  /** End to end for the path: mutating the request of a path target leaves the query and the body alone and
      replaces exactly the discovered segment, if and only if the payload has no slash. */
  lemma PathSubmissionKeepsOthers(lib: Library, root: Target, fromForm: bool, routable: bool, d: Discovered,
                                  isToken: string -> bool, t: Target, id: string, payload: string, policy: Policy)
    requires root.location == "" && t in EndpointTargets(root, fromForm, routable, d, isToken) && t.location == "path"
    ensures var r := Mutated(lib, Baseline(t), Mutation(id, PathSegment, t.parameter, payload, false, t.segmentIndex), policy);
            && (r.Done? <==> 0 <= t.segmentIndex < |Segments(root.path)|)
            && (r.Done? ==> r.content.query == root.query && r.content.body == "")
            && (r.Done? ==> (Segments(r.content.path) == Segments(root.path)[t.segmentIndex := payload]
                             <==> Joining.Free(payload, '/')))
    ensures exists i :: 0 <= i < |d.path| && d.path[i].name == t.parameter && d.path[i].segmentIndex == t.segmentIndex
  {
    PathTargetFacts(root, fromForm, routable, d, isToken, t);
    if 0 <= t.segmentIndex < |Segments(root.path)| {
      PathSetsSegmentIff(lib, Baseline(t), Mutation(id, PathSegment, t.parameter, payload, false, t.segmentIndex), policy);
    }
  }
}
