/** Requests and the one controlled change a mutation makes to a deep copy of one. Text is bytes; the JSON
    body update is a parameter here, specified on its own in JsonMutation. */
module MutationRequest {
  import opened Basics
  import opened Ordering
  import opened UrlValues
  import Joining

  datatype Location = Query | Form | Json | PathSegment | Header | CookieValue | Unknown(name: string)

  datatype Mutation = Mutation(
    id: string, location: Location, parameter: string, value: string, verbatim: bool, segmentIndex: int)

  datatype Policy = Policy(allowedHeaders: seq<string>, allowedCookies: seq<string>)

  datatype BodyUpdate = Updated(body: string) | Refused | Crashed

  /** Library parts: strings.EqualFold, the canonical form of a header name, and the JSON body update. */
  datatype Library = Library(
    equalFold: (string, string) -> bool, canonical: string -> string,
    updateJson: (string, string, string, bool) -> BodyUpdate)

  datatype CookiePair = CookiePair(name: string, value: string)

  /** All mutable state of a request, as a value. */
  datatype Content = Content(
    path: string, query: Values, rawQuery: Option<string>, headers: Values, cookies: seq<CookiePair>,
    body: string, contentType: string, mutated: bool, mutationId: string)

  datatype Result = Done(content: Content) | Rejected | Panicked

  // ----- the specification of Mutate -----

  predicate ContainsFold(lib: Library, list: seq<string>, name: string) {
    exists i | 0 <= i < |list| :: lib.equalFold(list[i], name)
  }

  function Segments(path: string): seq<string> {
    Joining.Split(if path != "" && path[0] == '/' then path[1..] else path, '/')
  }

  function SetSegment(path: string, index: nat, value: string): string
    requires index < |Segments(path)|
  {
    "/" + Joining.Join(Segments(path)[index := value], '/')
  }

  function SpliceQuery(others: Values, name: string, value: string): string {
    Spliced(others, name, value)
  }

  /** The first cookie of that name, whatever its case, gets the value; otherwise it is added. */
  function SetCookie(lib: Library, cookies: seq<CookiePair>, name: string, value: string): seq<CookiePair> {
    if cookies == [] then [CookiePair(name, value)]
    else if lib.equalFold(cookies[0].name, name) then [CookiePair(cookies[0].name, value)] + cookies[1..]
    else [cookies[0]] + SetCookie(lib, cookies[1..], name, value)
  }

  function Mutated(lib: Library, c: Content, m: Mutation, policy: Policy): Result {
    Applied(lib, c.(mutated := true, mutationId := m.id), m, policy)
  }

  function Applied(lib: Library, c: Content, m: Mutation, policy: Policy): Result {
    match m.location
    case Query =>
      if m.verbatim then
        var others := c.query - {m.parameter};
        Done(c.(query := others, rawQuery := Some(SpliceQuery(others, m.parameter, m.value))))
      else Done(c.(query := c.query[m.parameter := [m.value]], rawQuery := None))
    case Form =>
      (match ApplyForm(c.body, m.parameter, m.value, m.verbatim)
       case Some(body) => Done(c.(body := body, contentType := "application/x-www-form-urlencoded"))
       case None => Rejected)
    case Json =>
      (match lib.updateJson(c.body, m.parameter, m.value, m.verbatim)
       case Updated(body) => Done(c.(body := body, contentType := "application/json"))
       case Refused => Rejected
       case Crashed => Panicked)
    case PathSegment =>
      if 0 <= m.segmentIndex < |Segments(c.path)| then Done(c.(path := SetSegment(c.path, m.segmentIndex, m.value)))
      else Rejected
    case Header =>
      if !ContainsFold(lib, policy.allowedHeaders, m.parameter) then Rejected
      else Done(c.(headers := c.headers[lib.canonical(m.parameter) := [m.value]]))
    case CookieValue =>
      if !ContainsFold(lib, policy.allowedCookies, m.parameter) then Rejected
      else Done(c.(cookies := SetCookie(lib, c.cookies, m.parameter, m.value)))
    case Unknown(_) => Rejected
  }

  /** The query string a request is sent with. */
  function QueryText(c: Content): string {
    match c.rawQuery case Some(raw) => raw case None => Encode(c.query)
  }

  // ----- requests as objects -----

  class Cookie {
    var name: string
    var value: string

    constructor (name: string, value: string)
      ensures this.name == name && this.value == value
    {
      this.name, this.value := name, value;
    }
  }

  /** `url.Values` and `http.Header` as they are in memory: a map of slices, each of which can be shared. */
  class Table {
    var entries: map<string, array<string>>
    ghost var values: Values  // what the slices hold
    ghost var Repr: set<object>  // the map and the slices in it

    ghost predicate Valid()
      reads this, Repr
    {
      && this in Repr && entries.Keys == values.Keys
      && forall name :: name in entries ==> entries[name] in Repr && entries[name][..] == values[name]
    }

    constructor ()
      ensures Valid() && fresh(Repr) && values == map[]
    {
      entries, values := map[], map[];
      Repr := {this};
    }

    /** Stores a slice under a name. */
    method Put(name: string, slice: array<string>)
      requires Valid()
      modifies this
      ensures Valid() && Repr == old(Repr) + {slice} && values == old(values)[name := slice[..]]
    {
      entries, values := entries[name := slice], values[name := slice[..]];
      Repr := Repr + {slice};
    }

    method Set(name: string, value: string)
      requires Valid()
      modifies this
      ensures Valid() && fresh(Repr - old(Repr)) && values == old(values)[name := [value]]
    {
      var slice := new string[1];
      slice[0] := value;
      assert slice[..] == [value];
      Put(name, slice);
    }

    method Delete(name: string)
      requires Valid()
      modifies this
      ensures Valid() && Repr == old(Repr) && values == old(values) - {name}
    {
      entries, values := entries - {name}, values - {name};
    }

    /** `Values.Encode`. */
    function Encoded(): (text: string)
      requires Valid()
      reads this, Repr
      ensures text == Encode(values)
    {
      var current := map name | name in entries :: entries[name][..];
      assert current == values;
      Encode(current)
    }
  }

  /** A verbatim query string behind a pointer. */
  class Override {
    var text: string

    constructor (text: string)
      ensures this.text == text
    {
      this.text := text;
    }
  }

  method CloneSlice<T(0)>(a: array<T>) returns (out: array<T>)
    ensures fresh(out) && out[..] == a[..]
  {
    out := new T[a.Length];
    for i := 0 to a.Length
      invariant out[..i] == a[..i]
    {
      out[i] := a[i];
    }
  }

  method CloneValues(v: Table) returns (out: Table)
    requires v.Valid()
    ensures out.Valid() && fresh(out.Repr) && out.values == v.values
  {
    out := new Table();
    var rest := v.entries.Keys;
    while rest != {}
      invariant rest <= v.entries.Keys && out.values.Keys == v.entries.Keys - rest
      invariant out.Valid() && fresh(out.Repr)
      invariant forall name :: name in out.values ==> out.values[name] == v.values[name]
      decreases |rest|
    {
      var name :| name in rest;
      var copy := CloneSlice(v.entries[name]);
      out.Put(name, copy);
      rest := rest - {name};
    }
  }

  ghost function Referred(o: Override?): set<object> {
    if o == null then {} else {o}
  }

  method CloneOverride(o: Override?) returns (out: Override?)
    ensures out == null <==> o == null
    ensures out != null ==> fresh(out) && out.text == o.text
  {
    out := null;
    if o != null {
      out := new Override(o.text);
    }
  }

  method VerbatimQuery(others: Table, name: string, value: string) returns (out: Override)
    requires others.Valid()
    ensures fresh(out) && out.text == SpliceQuery(others.values, name, value)
  {
    var rest := others.Encoded();
    var raw := name + "=" + value;
    if rest != "" {
      raw := raw + ("&" + rest);
    }
    assert raw == Spliced(others.values, name, value);
    out := new Override(raw);
  }

  ghost function Pairs(cookies: seq<Cookie>): seq<CookiePair>
    reads cookies
  {
    seq(|cookies|, i requires 0 <= i < |cookies| reads cookies => CookiePair(cookies[i].name, cookies[i].value))
  }

  ghost predicate Distinct(cookies: seq<Cookie>) {
    forall i, j :: 0 <= i < j < |cookies| ==> cookies[i] != cookies[j]
  }

  method CloneCookies(cookies: seq<Cookie>) returns (out: seq<Cookie>)
    ensures forall i :: 0 <= i < |out| ==> fresh(out[i])
    ensures Distinct(out) && Pairs(out) == Pairs(cookies)
  {
    out := [];
    for i := 0 to |cookies|
      invariant |out| == i && Distinct(out)
      invariant forall k :: 0 <= k < i ==> fresh(out[k])
      invariant forall k :: 0 <= k < i ==> out[k].name == cookies[k].name && out[k].value == cookies[k].value
    {
      var c := new Cookie(cookies[i].name, cookies[i].value);
      out := out + [c];
    }
    assert Pairs(out) == Pairs(cookies);
  }

  /** The bytes of a string in a slice of their own. */
  method ToBytes(text: string) returns (out: array<char>)
    ensures fresh(out) && out[..] == text
  {
    out := new char[|text|];
    for i := 0 to |text|
      invariant out[..i] == text[..i]
    {
      out[i] := text[i];
    }
  }

  /** The cookies after the change: copies, so writing through one of them reaches no other request. */
  method WithCookie(lib: Library, cookies: seq<Cookie>, name: string, value: string) returns (out: seq<Cookie>)
    ensures forall i :: 0 <= i < |out| ==> fresh(out[i])
    ensures Pairs(out) == SetCookie(lib, Pairs(cookies), name, value)
  {
    out := CloneCookies(cookies);
    ghost var before := Pairs(out);
    for i := 0 to |out|
      invariant forall k :: 0 <= k < i ==> !lib.equalFold(before[k].name, name)
    {
      if lib.equalFold(out[i].name, name) {
        SetCookieAt(lib, before, name, value, i);
        out[i].value := value;
        assert Pairs(out) == before[i := CookiePair(before[i].name, value)];
        return;
      }
    }
    SetCookieNew(lib, before, name, value);
    var added := new Cookie(name, value);
    out := out + [added];
    assert Pairs(out) == before + [CookiePair(name, value)];
  }

  class Request {
    var path: string
    var query: Table
    var rawQuery: Override?
    var headers: Table
    var cookies: seq<Cookie>
    var body: array<char>
    var contentType: string
    var mutated: bool
    var mutationId: string

    ghost var Repr: set<object>  // all that belongs to this request

    ghost predicate Valid()
      reads this, Repr
    {
      && this in Repr && query in Repr && headers in Repr && body in Repr && query.Repr <= Repr && headers.Repr <= Repr
      && this !in query.Repr && this !in headers.Repr && query.Valid() && headers.Valid()
      && (forall i :: 0 <= i < |cookies| ==> cookies[i] in Repr)
      && (rawQuery != null ==> rawQuery in Repr)
    }

    ghost function Raw(): Option<string>
      reads this, rawQuery
    {
      if rawQuery == null then None else Some(rawQuery.text)
    }

    ghost function Contents(): Content
      reads this, query, headers, cookies, body, rawQuery
    {
      Content(path, query.values, Raw(), headers.values, Pairs(cookies), body[..], contentType, mutated, mutationId)
    }

    constructor (path: string, query: Table, rawQuery: Override?, headers: Table, cookies: seq<Cookie>,
                 body: array<char>, contentType: string, mutated: bool, mutationId: string)
      requires query.Valid() && headers.Valid()
      ensures Valid() && Repr == {this, body} + query.Repr + headers.Repr + Elements(cookies) + Referred(rawQuery)
      ensures Contents() == Content(path, query.values, if rawQuery == null then None else Some(rawQuery.text),
                                    headers.values, Pairs(cookies), body[..], contentType, mutated, mutationId)
    {
      this.path, this.query, this.rawQuery, this.headers, this.cookies := path, query, rawQuery, headers, cookies;
      this.body, this.contentType, this.mutated, this.mutationId := body, contentType, mutated, mutationId;
      Repr := {this, body} + query.Repr + headers.Repr + Elements(cookies) + Referred(rawQuery);
    }

    method CloneTables() returns (q: Table, h: Table)
      requires Valid()
      ensures q.Valid() && h.Valid() && fresh(q.Repr) && fresh(h.Repr)
      ensures q.values == query.values && h.values == headers.values
    {
      q := CloneValues(query);
      h := CloneValues(headers);
    }

    method CloneOthers() returns (c: seq<Cookie>, b: array<char>, raw: Override?)
      ensures fresh(b) && fresh(Elements(c)) && fresh(Referred(raw))
      ensures Pairs(c) == Pairs(cookies) && b[..] == body[..]
      ensures (raw == null <==> rawQuery == null) && (raw != null ==> raw.text == rawQuery.text)
    {
      c := CloneCookies(cookies);
      b := CloneSlice(body);
      raw := CloneOverride(rawQuery);
    }

    /** A deep copy: equal contents, and every map, slice, cookie and pointer of its own. */
    method Clone() returns (copy: Request)
      requires Valid()
      ensures copy.Valid() && fresh(copy.Repr) && copy.Contents() == Contents()
    {
      var q, h := CloneTables();
      var c, b, raw := CloneOthers();
      copy := new Request(path, q, raw, h, c, b, contentType, mutated, mutationId);
    }

    method Mark(id: string)
      requires Valid()
      modifies this
      ensures Valid() && Repr == old(Repr) && Contents() == old(Contents()).(mutated := true, mutationId := id)
    {
      mutated, mutationId := true, id;
    }

    /** Installs a query of its own. */
    method ReplaceQuery(q: Table, raw: Override?)
      requires Valid() && q.Valid() && this !in q.Repr
      modifies this
      ensures Valid() && Repr == old(Repr) + q.Repr + Referred(raw)
      ensures Contents() == old(Contents()).(
                query := old(q.values), rawQuery := if raw == null then None else Some(raw.text))
    {
      ghost var before := Contents();
      query, rawQuery := q, raw;
      Repr := Repr + q.Repr + Referred(raw);
      assert headers.values == before.headers && Pairs(cookies) == before.cookies && body[..] == before.body;
    }

    method SpliceVerbatim(name: string, value: string)
      requires Valid()
      modifies this
      ensures Valid() && fresh(Repr - old(Repr))
      ensures var before := old(Contents());
              var others := before.query - {name};
              Contents() == before.(query := others, rawQuery := Some(SpliceQuery(others, name, value)))
    {
      var q := CloneValues(query);
      q.Delete(name);
      var raw := VerbatimQuery(q, name, value);
      ReplaceQuery(q, raw);
    }

    method ApplyQuery(m: Mutation)
      requires Valid()
      modifies this
      ensures Valid() && fresh(Repr - old(Repr))
      ensures var before := old(Contents());
              var others := before.query - {m.parameter};
              Contents() == if m.verbatim
                            then before.(query := others, rawQuery := Some(SpliceQuery(others, m.parameter, m.value)))
                            else before.(query := before.query[m.parameter := [m.value]], rawQuery := None)
    {
      if m.verbatim {
        SpliceVerbatim(m.parameter, m.value);
      } else {
        var q := CloneValues(query);
        q.Set(m.parameter, m.value);
        ReplaceQuery(q, null);
      }
    }

    method ApplyBody(newBody: string, newType: string)
      requires Valid()
      modifies this
      ensures Valid() && fresh(Repr - old(Repr))
      ensures Contents() == old(Contents()).(body := newBody, contentType := newType)
    {
      var b := ToBytes(newBody);
      body, contentType := b, newType;
      Repr := Repr + {b};
    }

    method ApplyPath(m: Mutation) returns (ok: bool)
      requires Valid()
      modifies this
      ensures Valid() && Repr == old(Repr)
      ensures ok <==> 0 <= m.segmentIndex < |Segments(old(path))|
      ensures Contents() == if ok then old(Contents()).(path := SetSegment(old(path), m.segmentIndex, m.value)) else old(Contents())
    {
      var segments := Segments(path);
      if m.segmentIndex < 0 || m.segmentIndex >= |segments| {
        return false;
      }
      path := "/" + Joining.Join(segments[m.segmentIndex := m.value], '/');
      ok := true;
    }

    method ApplyHeader(lib: Library, m: Mutation)
      requires Valid()
      modifies this
      ensures Valid() && fresh(Repr - old(Repr))
      ensures Contents() == old(Contents()).(headers := old(headers.values)[lib.canonical(m.parameter) := [m.value]])
    {
      var h := CloneValues(headers);
      h.Set(lib.canonical(m.parameter), m.value);
      headers := h;
      Repr := Repr + h.Repr;
    }

    /** Writes through cookie objects, so it does that on copies of its own. */
    method ApplyCookie(lib: Library, m: Mutation)
      requires Valid()
      modifies this
      ensures Valid() && fresh(Repr - old(Repr))
      ensures Contents() == old(Contents()).(cookies := SetCookie(lib, old(Pairs(cookies)), m.parameter, m.value))
    {
      var changed := WithCookie(lib, cookies, m.parameter, m.value);
      cookies := changed;
      Repr := Repr + Elements(changed);
    }

    /** The change itself, in place; a refused one leaves a request that Mutate discards. */
    method Apply(lib: Library, m: Mutation, policy: Policy) returns (applied: bool)
      requires Valid()
      modifies this
      ensures Valid() && fresh(Repr - old(Repr))
      ensures var r := Applied(lib, old(Contents()), m, policy);
              (applied <==> r.Done?) && (applied ==> Contents() == r.content)
    {
      applied := true;
      match m.location {
        case Query => ApplyQuery(m);
        case Form =>
          var text := ApplyForm(body[..], m.parameter, m.value, m.verbatim);
          applied := text.Some?;
          if applied {
            ApplyBody(text.value, "application/x-www-form-urlencoded");
          }
        case Json =>
          var update := lib.updateJson(body[..], m.parameter, m.value, m.verbatim);
          applied := update.Updated?;
          if applied {
            ApplyBody(update.body, "application/json");
          }
        case PathSegment => applied := ApplyPath(m);
        case Header =>
          applied := Allowed(lib, policy.allowedHeaders, m.parameter);
          if applied {
            ApplyHeader(lib, m);
          }
        case CookieValue =>
          applied := Allowed(lib, policy.allowedCookies, m.parameter);
          if applied {
            ApplyCookie(lib, m);
          }
        case Unknown(_) => applied := false;
      }
    }
  }

  lemma {:induction false} SetCookieAt(lib: Library, cookies: seq<CookiePair>, name: string, value: string, i: nat)
    requires i < |cookies| && lib.equalFold(cookies[i].name, name)
    requires forall k :: 0 <= k < i ==> !lib.equalFold(cookies[k].name, name)
    ensures SetCookie(lib, cookies, name, value) == cookies[i := CookiePair(cookies[i].name, value)]
    decreases i
  {
    if i > 0 {
      SetCookieAt(lib, cookies[1..], name, value, i - 1);
      assert cookies == [cookies[0]] + cookies[1..];
    }
  }

  lemma {:induction false} SetCookieNew(lib: Library, cookies: seq<CookiePair>, name: string, value: string)
    requires forall k :: 0 <= k < |cookies| ==> !lib.equalFold(cookies[k].name, name)
    ensures SetCookie(lib, cookies, name, value) == cookies + [CookiePair(name, value)]
  {
    if cookies != [] {
      SetCookieNew(lib, cookies[1..], name, value);
    }
  }

  method Allowed(lib: Library, list: seq<string>, name: string) returns (found: bool)
    ensures found == ContainsFold(lib, list, name)
  {
    for i := 0 to |list|
      invariant forall k :: 0 <= k < i ==> !lib.equalFold(list[k], name)
    {
      if lib.equalFold(list[i], name) {
        return true;
      }
    }
    return false;
  }

  /** The mutated request is built on a deep copy. The original and all it refers to are outside every
      modifies clause here, so they keep their state, and nothing the result refers to existed before: no later
      change of either request reaches the other. */
  method Mutate(lib: Library, original: Request, m: Mutation, policy: Policy) returns (req: Request?, ghost result: Result)
    requires original.Valid()
    ensures result == Mutated(lib, original.Contents(), m, policy)
    ensures result.Done? <==> req != null
    ensures req != null ==> req.Valid() && fresh(req.Repr) && req.Contents() == result.content
  {
    result := Mutated(lib, original.Contents(), m, policy);
    var r := original.Clone();
    r.Mark(m.id);
    var applied := r.Apply(lib, m, policy);
    req := if applied then r else null;
  }

  /** Two mutations of one original share nothing and neither sees the other's change. */
  method MutateTwice(lib: Library, original: Request, m: Mutation, n: Mutation, policy: Policy)
    returns (a: Request?, b: Request?)
    requires original.Valid()
    ensures a != null ==> a.Valid() && Done(a.Contents()) == Mutated(lib, original.Contents(), m, policy)
    ensures b != null ==> b.Valid() && Done(b.Contents()) == Mutated(lib, original.Contents(), n, policy)
    ensures a != null && b != null ==> a.Repr !! b.Repr
    ensures original.Valid() && original.Contents() == old(original.Contents())
  {
    ghost var ra, rb;
    a, ra := Mutate(lib, original, m, policy);
    b, rb := Mutate(lib, original, n, policy);
  }

  // ----- what the one change means -----

  ghost predicate Permits(lib: Library, list: seq<string>, name: string) {
    exists n :: n in list && lib.equalFold(n, name)
  }

  /** Headers and cookies are changed only where the policy names them, each by its own list. */
  lemma PolicyGuards(lib: Library, c: Content, m: Mutation, policy: Policy)
    ensures m.location.Header? ==> (Mutated(lib, c, m, policy).Done? <==> Permits(lib, policy.allowedHeaders, m.parameter))
    ensures m.location.CookieValue? ==> (Mutated(lib, c, m, policy).Done? <==> Permits(lib, policy.allowedCookies, m.parameter))
  {
    PermitsIff(lib, policy.allowedHeaders, m.parameter);
    PermitsIff(lib, policy.allowedCookies, m.parameter);
  }

  lemma PermitsIff(lib: Library, list: seq<string>, name: string)
    ensures ContainsFold(lib, list, name) <==> Permits(lib, list, name)
  {
    if i :| 0 <= i < |list| && lib.equalFold(list[i], name) {
      assert list[i] in list;
    }
  }

  /** Whatever is mutated, everything else of the request stays, other header names and other cookies included. */
  lemma OneChange(lib: Library, c: Content, m: Mutation, policy: Policy)
    requires Mutated(lib, c, m, policy).Done?
    ensures var n := Mutated(lib, c, m, policy).content;
            && n.mutated && n.mutationId == m.id
            && (!m.location.Query? ==> n.query == c.query && n.rawQuery == c.rawQuery)
            && (!m.location.Form? && !m.location.Json? ==> n.body == c.body && n.contentType == c.contentType)
            && (!m.location.PathSegment? ==> n.path == c.path)
            && (!m.location.Header? ==> n.headers == c.headers)
            && (!m.location.CookieValue? ==> n.cookies == c.cookies)
            && (m.location.Header? ==> OneHeader(c.headers, n.headers, lib.canonical(m.parameter), m.value))
            && (m.location.CookieValue? ==> OneCookie(lib, c.cookies, n.cookies, m.parameter, m.value))
  {
    if m.location.CookieValue? {
      CookieChange(lib, c.cookies, m.parameter, m.value);
    }
  }

  ghost predicate OneHeader(before: Values, after: Values, name: string, value: string) {
    && after.Keys == before.Keys + {name} && after[name] == [value]
    && forall h :: h in before && h != name ==> after[h] == before[h]
  }

  /** The first cookie of that name has the value, or one was added because there was none. */
  ghost predicate OneCookie(lib: Library, before: seq<CookiePair>, after: seq<CookiePair>, name: string, value: string) {
    if exists i :: FirstNamed(lib, before, name, i)
    then exists i :: FirstNamed(lib, before, name, i) && after == before[i := CookiePair(before[i].name, value)]
    else after == before + [CookiePair(name, value)]
  }

  ghost predicate FirstNamed(lib: Library, cookies: seq<CookiePair>, name: string, i: int) {
    && 0 <= i < |cookies| && lib.equalFold(cookies[i].name, name)
    && forall k :: 0 <= k < i ==> !lib.equalFold(cookies[k].name, name)
  }

  lemma CookieChange(lib: Library, cookies: seq<CookiePair>, name: string, value: string)
    ensures OneCookie(lib, cookies, SetCookie(lib, cookies, name, value), name, value)
  {
    if i :| FirstNamed(lib, cookies, name, i) {
      SetCookieAt(lib, cookies, name, value, i);
    } else {
      NoneNamed(lib, cookies, name, |cookies|);
      SetCookieNew(lib, cookies, name, value);
    }
  }

  lemma {:induction false} NoneNamed(lib: Library, cookies: seq<CookiePair>, name: string, n: nat)
    requires n <= |cookies| && !exists i :: FirstNamed(lib, cookies, name, i)
    ensures forall k :: 0 <= k < n ==> !lib.equalFold(cookies[k].name, name)
  {
    if n > 0 {
      NoneNamed(lib, cookies, name, n - 1);
      assert !FirstNamed(lib, cookies, name, n - 1);
    }
  }

  /** Escaped query mutation: the query string sent decodes to the old parameters with exactly the named one
      replaced. */
  lemma QuerySets(lib: Library, c: Content, m: Mutation, policy: Policy)
    requires m.location.Query? && !m.verbatim && ByteValues(c.query) && Bytes(m.parameter) && Bytes(m.value)
    ensures var r := Mutated(lib, c, m, policy);
            r.Done? && Decode(QueryText(r.content)) == Some(NonEmpty(c.query)[m.parameter := [m.value]])
  {
    QuerySet(c.query, m.parameter, m.value);
    EncodeRoundTrip(c.query[m.parameter := [m.value]]);
  }

  /** Verbatim query mutation with a payload escaped beforehand means the same, exactly for the names that need no
      escaping. */
  lemma VerbatimQuerySetsIff(lib: Library, c: Content, m: Mutation, payload: string, policy: Policy)
    requires m.location.Query? && m.verbatim && m.value == QueryEscape(payload)
    requires ByteValues(c.query) && Bytes(m.parameter) && Bytes(payload)
    ensures var r := Mutated(lib, c, m, policy);
            r.Done? && (Decode(QueryText(r.content)) == Some(NonEmpty(c.query)[m.parameter := [payload]])
                        <==> Literal(m.parameter))
  {
    SplicedDecodesIff(c.query, m.parameter, payload);
  }

  lemma QuerySet(v: Values, name: string, value: string)
    requires ByteValues(v) && Bytes(name) && Bytes(value)
    ensures var w := v[name := [value]]; ByteValues(w) && NonEmpty(w) == NonEmpty(v)[name := [value]]
  {
    var w := v[name := [value]];
    assert forall k :: k in w ==> w[k] == if k == name then [value] else v[k];
  }

  /** Path mutation replaces exactly the chosen segment, exactly when the payload holds no slash: a payload
      with one changes the number of segments. */
  lemma PathSetsSegmentIff(lib: Library, c: Content, m: Mutation, policy: Policy)
    requires m.location.PathSegment? && 0 <= m.segmentIndex < |Segments(c.path)|
    ensures var r := Mutated(lib, c, m, policy);
            r.Done? && (Segments(r.content.path) == Segments(c.path)[m.segmentIndex := m.value]
                        <==> Joining.Free(m.value, '/'))
  {
    var segments := Segments(c.path);
    var replaced := segments[m.segmentIndex := m.value];
    var text := Joining.Join(replaced, '/');
    Joining.SplitPartsFree(if c.path != "" && c.path[0] == '/' then c.path[1..] else c.path, '/');
    assert ("/" + text)[1..] == text;
    if Joining.Free(m.value, '/') {
      Joining.SplitJoin(replaced, '/');
    } else {
      Joining.SplitPartsFree(text, '/');
      if Joining.Split(text, '/') == replaced {
        assert !Joining.Free(replaced[m.segmentIndex], '/');
      }
    }
  }

  /** Every slash in the payload adds a segment. */
  lemma PathGrowsBySlashes(lib: Library, c: Content, m: Mutation, policy: Policy)
    requires m.location.PathSegment? && 0 <= m.segmentIndex < |Segments(c.path)|
    ensures var r := Mutated(lib, c, m, policy);
            r.Done? && |Segments(r.content.path)| == |Segments(c.path)| + Joining.Count(m.value, '/')
  {
    var segments := Segments(c.path);
    var replaced := segments[m.segmentIndex := m.value];
    var text := Joining.Join(replaced, '/');
    Joining.SplitPartsFree(if c.path != "" && c.path[0] == '/' then c.path[1..] else c.path, '/');
    assert ("/" + text)[1..] == text;
    Joining.SplitCount(text, '/');
    Joining.CountJoin(replaced, '/');
    Joining.CountOne(replaced, m.segmentIndex, '/');
  }

  /** The payload x/y put in place of the first segment of /a/b asks for /x/y/b. */
  lemma SlashInPayload(lib: Library, c: Content, id: string, policy: Policy)
    requires c.path == "/a/b"
    ensures var r := Mutated(lib, c, Mutation(id, PathSegment, "", "x/y", false, 0), policy);
            r.Done? && r.content.path == "/x/y/b" && Segments(c.path) == ["a", "b"]
            && Segments(r.content.path) == ["x", "y", "b"]
  {
    Joining.SplitJoin(["a", "b"], '/');
    assert ["a", "b"][1..] == ["b"] && ["a", "b"][0 := "x/y"] == ["x/y", "b"] && ["x/y", "b"][1..] == ["b"];
    assert c.path[1..] == Joining.Join(["a", "b"], '/');
    Joining.SplitJoin(["x", "y", "b"], '/');
    assert ["x", "y", "b"][1..] == ["y", "b"] && ["y", "b"][1..] == ["b"];
    assert "/x/y/b"[1..] == Joining.Join(["x", "y", "b"], '/');
    assert Joining.Join(["x/y", "b"], '/') == "x/y/b";
  }
}
