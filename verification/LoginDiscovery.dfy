/** The bounded search for a login form. Fetching and scoring a page, and finding its login-like links, are
    arbitrary functions; scores are never negative. */
module LoginDiscovery {
  import opened Basics
  import opened Ordering

  const MAX_PAGES: nat := 3

  datatype Form = Form(action: string, hasPassword: bool, inputs: seq<Input>)

  datatype Input = Input(name: string, kind: string)

  /** links are the same-origin login-like links, best first. */
  datatype Page = Page(address: string, forms: seq<Form>, links: seq<string>)

  type Fetch = string -> Option<Page>

  /** The first item of highest score among the eligible ones. */
  ghost predicate IsFirstBest<T>(items: seq<T>, eligible: T -> bool, score: T -> nat, i: nat) {
    && i < |items| && eligible(items[i])
    && (forall k :: 0 <= k < |items| && eligible(items[k]) ==> score(items[k]) <= score(items[i]))
    && (forall k :: 0 <= k < i && eligible(items[k]) ==> score(items[k]) < score(items[i]))
  }

  /** Keep the best so far, replaced only by a strictly better one. */
  method FirstBest<T>(items: seq<T>, eligible: T -> bool, score: T -> nat) returns (best: Option<nat>)
    ensures best.Some? ==> IsFirstBest(items, eligible, score, best.value)
    ensures best.None? ==> forall k :: 0 <= k < |items| ==> !eligible(items[k])
  {
    best := None;
    var bestScore: int := -1;
    for i := 0 to |items|
      invariant bestScore >= 0 <==> best.Some?
      invariant best.None? ==> forall k :: 0 <= k < i ==> !eligible(items[k])
      invariant best.Some? ==> best.value < i && eligible(items[best.value]) && bestScore == score(items[best.value])
      invariant forall k :: 0 <= k < i && eligible(items[k]) ==> score(items[k]) <= bestScore
      invariant best.Some? ==> forall k :: 0 <= k < best.value && eligible(items[k]) ==> score(items[k]) < bestScore
    {
      if !eligible(items[i]) {
        continue;
      }
      if score(items[i]) > bestScore {
        bestScore := score(items[i]);
        best := Some(i);
      }
    }
  }

  predicate IsTextLike(input: Input) {
    input.kind == "text" || input.kind == "email" || input.kind == "tel" || input.kind == "search"
  }

  /** The field a username goes into, or nothing when the form has no text-like field. */
  method IdentifyUsername(form: Form, score: Input -> nat) returns (name: Option<string>)
    ensures name.None? <==> forall k :: 0 <= k < |form.inputs| ==> !IsTextLike(form.inputs[k])
    ensures name.Some? ==> exists i: nat :: IsFirstBest(form.inputs, IsTextLike, score, i) && name.value == form.inputs[i].name
  {
    var best := FirstBest(form.inputs, IsTextLike, score);
    name := match best case Some(i) => Some(form.inputs[i].name) case None => None;
  }

  const HasPassword := (f: Form) => f.hasPassword

  ghost predicate Promising(fetch: Fetch, address: string) {
    fetch(address).Some? && exists i :: 0 <= i < |fetch(address).value.forms| && fetch(address).value.forms[i].hasPassword
  }

  /** Reached from the start through the links of pages fetched before. */
  ghost predicate Reached(fetch: Fetch, start: string, fetched: seq<string>, address: string) {
    address == start || exists k :: 0 <= k < |fetched| && fetch(fetched[k]).Some? && address in fetch(fetched[k]).value.links
  }

  lemma ReachedLater(fetch: Fetch, start: string, fetched: seq<string>, more: seq<string>, address: string)
    requires Reached(fetch, start, fetched, address)
    ensures Reached(fetch, start, fetched + more, address)
  {
    if address != start {
      var k :| 0 <= k < |fetched| && fetch(fetched[k]).Some? && address in fetch(fetched[k]).value.links;
      assert (fetched + more)[k] == fetched[k];
    }
  }

  /** What the search has done so far: no page twice, each reached from earlier ones, none promising. */
  ghost predicate Searched(fetch: Fetch, start: string, fetched: seq<string>, queue: seq<string>) {
    && NoDup(fetched)
    && (forall k :: 0 <= k < |fetched| ==> Reached(fetch, start, fetched[..k], fetched[k]))
    && (forall k :: 0 <= k < |queue| ==> Reached(fetch, start, fetched, queue[k]))
  }

  ghost predicate NonePromising(fetch: Fetch, fetched: seq<string>) {
    forall k :: 0 <= k < |fetched| ==> !Promising(fetch, fetched[k])
  }

  /** Fetches at most three addresses, none twice, each the start or linked from an earlier one, and stops at
      the first page with a password form: its best one is the result. Without such a page there is none. */
  method DiscoverLoginForm(fetch: Fetch, start: string, score: (Page, Form) -> nat)
    returns (found: Option<(Form, string)>, fetched: seq<string>)
    ensures |fetched| <= 3 && Searched(fetch, start, fetched, [])
    ensures if found.None? then NonePromising(fetch, fetched)
            else fetched != [] && NonePromising(fetch, fetched[..|fetched| - 1])
                 && IsResult(fetch, fetched[|fetched| - 1], score, found.value)
    ensures found.None? && |fetched| < 3 ==> Pending(fetch, start, fetched, [])
    ensures InTurn(fetch, start, fetched)
  {
    ghost var taken: seq<string> := [];
    var queue := [start];
    var visited: set<string> := {};
    fetched, found := [], None;
    while queue != [] && |fetched| < MAX_PAGES
      invariant |fetched| <= MAX_PAGES && found.None? && State(fetch, start, fetched, queue, visited, taken)
      decreases MAX_PAGES - |fetched|, |queue|
    {
      found, fetched, queue, visited, taken := Turn(fetch, start, score, fetched, queue, visited, taken);
      if found.Some? {
        return;
      }
    }
  }

  ghost predicate State(fetch: Fetch, start: string, fetched: seq<string>, queue: seq<string>, visited: set<string>, taken: seq<string>) {
    && visited == Elements(fetched) && NonePromising(fetch, fetched)
    && Underway(fetch, start, fetched, queue, taken)
    && (|fetched| < MAX_PAGES ==> Complete(fetch, start, fetched, queue, taken))
  }

  /** The head of the queue: passed over if it was fetched before, else fetched, with its links put in the queue
      unless it is the result or the last page. */
  method Turn(fetch: Fetch, start: string, score: (Page, Form) -> nat, fetched0: seq<string>, queue0: seq<string>,
              visited0: set<string>, ghost taken0: seq<string>)
    returns (found: Option<(Form, string)>, fetched: seq<string>, queue: seq<string>, visited: set<string>, ghost taken: seq<string>)
    requires queue0 != [] && |fetched0| < MAX_PAGES && State(fetch, start, fetched0, queue0, visited0, taken0)
    ensures found.None? ==> State(fetch, start, fetched, queue, visited, taken)
    ensures (fetched == fetched0 && |queue| < |queue0|) || |fetched| == |fetched0| + 1
    ensures found.Some? ==>
              && fetched == fetched0 + [queue0[0]] && Searched(fetch, start, fetched, []) && InTurn(fetch, start, fetched)
              && IsResult(fetch, queue0[0], score, found.value)
  {
    var address := queue0[0];
    found, fetched, queue, visited, taken := None, fetched0, queue0[1..], visited0, taken0 + [address];
    if address in visited {
      SkipKeeps(fetch, start, fetched0, queue0, taken0);
    } else {
      var links;
      found, links := Inspect(fetch, address, score);
      if found.None? {
        NextState(fetch, start, fetched0, queue0, visited0, links, taken0);
      } else {
        LastPage(fetch, start, fetched0, queue0, links, taken0);
      }
      visited, fetched := visited + {address}, fetched + [address];
      if found.None? && |fetched| < MAX_PAGES {
        queue := queue + links;
      }
    }
  }

  /** taken is what has left the queue. */
  ghost predicate Underway(fetch: Fetch, start: string, fetched: seq<string>, queue: seq<string>, taken: seq<string>) {
    Searched(fetch, start, fetched, queue) && taken <= Offered(fetch, start, fetched) && Dedupe(taken) == fetched
  }

  ghost predicate Complete(fetch: Fetch, start: string, fetched: seq<string>, queue: seq<string>, taken: seq<string>) {
    Pending(fetch, start, fetched, queue) && taken + queue == Offered(fetch, start, fetched)
  }

  /** Passing over an address that was fetched before. */
  lemma SkipKeeps(fetch: Fetch, start: string, fetched: seq<string>, queue: seq<string>, taken: seq<string>)
    requires queue != [] && queue[0] in Elements(fetched)
    requires Underway(fetch, start, fetched, queue, taken) && Complete(fetch, start, fetched, queue, taken)
    ensures Underway(fetch, start, fetched, queue[1..], taken + [queue[0]])
    ensures Complete(fetch, start, fetched, queue[1..], taken + [queue[0]])
  {
    TakeOne(taken, queue, fetched);
    PendingSkip(fetch, start, fetched, queue);
  }

  // ----- in what order -----

  /** The start, then the links of the fetched pages, page by page. */
  ghost function Offered(fetch: Fetch, start: string, fetched: seq<string>): seq<string>
    decreases |fetched|
  {
    if fetched == [] then [start]
    else
      var n := |fetched| - 1;
      Offered(fetch, start, fetched[..n]) + match fetch(fetched[n]) case Some(page) => page.links case None => []
  }

  /** Breadth first: pages are fetched in the order in which they were first linked. */
  ghost predicate InTurn(fetch: Fetch, start: string, fetched: seq<string>) {
    exists taken :: taken <= Offered(fetch, start, fetched) && Dedupe(taken) == fetched
  }

  lemma TakeOne(taken: seq<string>, queue: seq<string>, fetched: seq<string>)
    requires queue != [] && Dedupe(taken) == fetched
    ensures var more := taken + [queue[0]];
            more + queue[1..] == taken + queue
            && Dedupe(more) == if queue[0] in fetched then fetched else fetched + [queue[0]]
  {
    var more := taken + [queue[0]];
    assert more[..|taken|] == taken;
    DedupeFacts(taken);
    assert queue[0] in taken <==> queue[0] in Elements(taken);
    assert queue[0] in fetched <==> queue[0] in Elements(fetched);
  }

  lemma OfferMore(fetch: Fetch, start: string, fetched: seq<string>, taken: seq<string>, queue: seq<string>, links: seq<string>)
    requires taken != [] && taken + queue == Offered(fetch, start, fetched)
    requires links == match fetch(taken[|taken| - 1]) case Some(page) => page.links case None => []
    ensures var more := fetched + [taken[|taken| - 1]];
            taken + (queue + links) == Offered(fetch, start, more) && taken <= Offered(fetch, start, more)
  {
    var more := fetched + [taken[|taken| - 1]];
    assert more[..|fetched|] == fetched;
    assert taken + (queue + links) == (taken + queue) + links;
  }

  /** Fetching the head of the queue and queueing its links. */
  lemma VisitKeeps(fetch: Fetch, start: string, fetched: seq<string>, queue: seq<string>, links: seq<string>, taken: seq<string>)
    requires queue != [] && queue[0] !in Elements(fetched)
    requires Underway(fetch, start, fetched, queue, taken) && Complete(fetch, start, fetched, queue, taken)
    requires links == match fetch(queue[0]) case Some(page) => page.links case None => []
    ensures var more, gone := fetched + [queue[0]], taken + [queue[0]];
            && Elements(more) == Elements(fetched) + {queue[0]}
            && Underway(fetch, start, more, queue[1..], gone) && Underway(fetch, start, more, queue[1..] + links, gone)
            && Complete(fetch, start, more, queue[1..] + links, gone)
  {
    SearchMore(fetch, start, fetched, queue, links);
    TakeMore(fetch, start, fetched, queue, links, taken);
  }

  lemma NextState(fetch: Fetch, start: string, fetched: seq<string>, queue: seq<string>, visited: set<string>,
                  links: seq<string>, taken: seq<string>)
    requires queue != [] && |fetched| < MAX_PAGES && State(fetch, start, fetched, queue, visited, taken)
    requires queue[0] !in visited && !Promising(fetch, queue[0])
    requires links == match fetch(queue[0]) case Some(page) => page.links case None => []
    ensures var more, gone, all := fetched + [queue[0]], taken + [queue[0]], visited + {queue[0]};
            && State(fetch, start, more, queue[1..] + links, all, gone)
            && (|more| == MAX_PAGES ==> State(fetch, start, more, queue[1..], all, gone))
  {
    VisitKeeps(fetch, start, fetched, queue, links, taken);
  }

  lemma LastPage(fetch: Fetch, start: string, fetched: seq<string>, queue: seq<string>, links: seq<string>, taken: seq<string>)
    requires queue != [] && queue[0] !in Elements(fetched)
    requires Underway(fetch, start, fetched, queue, taken) && Complete(fetch, start, fetched, queue, taken)
    requires links == match fetch(queue[0]) case Some(page) => page.links case None => []
    ensures var more := fetched + [queue[0]]; Searched(fetch, start, more, []) && InTurn(fetch, start, more)
  {
    VisitKeeps(fetch, start, fetched, queue, links, taken);
  }

  lemma SearchMore(fetch: Fetch, start: string, fetched: seq<string>, queue: seq<string>, links: seq<string>)
    requires queue != [] && queue[0] !in Elements(fetched)
    requires Searched(fetch, start, fetched, queue) && Pending(fetch, start, fetched, queue)
    requires links == match fetch(queue[0]) case Some(page) => page.links case None => []
    ensures var more := fetched + [queue[0]];
            && Elements(more) == Elements(fetched) + {queue[0]}
            && Searched(fetch, start, more, queue[1..]) && Searched(fetch, start, more, queue[1..] + links)
            && Pending(fetch, start, more, queue[1..] + links)
  {
    var more := fetched + [queue[0]];
    assert more[..|more| - 1] == fetched;
    FetchedMore(fetch, start, fetched, queue[0], queue);
    PendingFetch(fetch, start, more, queue, links);
    QueueReached(fetch, start, more, queue[1..], links);
  }

  lemma TakeMore(fetch: Fetch, start: string, fetched: seq<string>, queue: seq<string>, links: seq<string>, taken: seq<string>)
    requires queue != [] && queue[0] !in Elements(fetched)
    requires taken + queue == Offered(fetch, start, fetched) && Dedupe(taken) == fetched
    requires links == match fetch(queue[0]) case Some(page) => page.links case None => []
    ensures var more, gone := fetched + [queue[0]], taken + [queue[0]];
            gone <= Offered(fetch, start, more) && Dedupe(gone) == more && gone + (queue[1..] + links) == Offered(fetch, start, more)
  {
    assert queue[0] in fetched <==> queue[0] in Elements(fetched);
    TakeOne(taken, queue, fetched);
    OfferMore(fetch, start, fetched, taken + [queue[0]], queue[1..], links);
  }

  /** One page: its best password form, and its links. */
  method Inspect(fetch: Fetch, address: string, score: (Page, Form) -> nat) returns (found: Option<(Form, string)>, links: seq<string>)
    ensures if found.Some? then IsResult(fetch, address, score, found.value) else !Promising(fetch, address)
    ensures links == match fetch(address) case Some(page) => page.links case None => []
  {
    var page := fetch(address);
    if page.None? {
      return None, [];
    }
    var best := FirstBest(page.value.forms, HasPassword, f => score(page.value, f));
    links := page.value.links;
    found := match best case Some(i) => Some((page.value.forms[i], page.value.address)) case None => None;
  }

  ghost predicate IsResult(fetch: Fetch, address: string, score: (Page, Form) -> nat, result: (Form, string)) {
    && fetch(address).Some? && result.1 == fetch(address).value.address
    && exists i: nat :: IsFirstBest(fetch(address).value.forms, HasPassword, f => score(fetch(address).value, f), i)
                        && result.0 == fetch(address).value.forms[i]
  }

  /** Whatever was reached is fetched or queued. */
  ghost predicate Pending(fetch: Fetch, start: string, fetched: seq<string>, queue: seq<string>) {
    forall address :: Reached(fetch, start, fetched, address) ==> address in fetched || address in queue
  }

  lemma PendingSkip(fetch: Fetch, start: string, fetched: seq<string>, queue: seq<string>)
    requires queue != [] && queue[0] in fetched
    ensures Pending(fetch, start, fetched, queue) ==> Pending(fetch, start, fetched, queue[1..])
  {
    assert queue == [queue[0]] + queue[1..];
  }

  lemma FetchedMore(fetch: Fetch, start: string, fetched: seq<string>, address: string, queue: seq<string>)
    requires Searched(fetch, start, fetched, queue) && address !in Elements(fetched) && queue != [] && queue[0] == address
    ensures Searched(fetch, start, fetched + [address], queue[1..])
    ensures Elements(fetched + [address]) == Elements(fetched) + {address}
  {
    var more := fetched + [address];
    forall k | 0 <= k < |more| ensures Reached(fetch, start, more[..k], more[k]) {
      assert more[..k] == if k < |fetched| then fetched[..k] else fetched;
    }
    forall k | 0 <= k < |queue| - 1 ensures Reached(fetch, start, more, queue[1..][k]) {
      ReachedLater(fetch, start, fetched, [address], queue[k + 1]);
    }
    assert forall k :: 0 <= k < |fetched| ==> fetched[k] in Elements(fetched);
  }

  lemma PendingFetch(fetch: Fetch, start: string, fetched: seq<string>, queue: seq<string>, links: seq<string>)
    requires fetched != [] && queue != [] && queue[0] == fetched[|fetched| - 1]
    requires links == match fetch(queue[0]) case Some(page) => page.links case None => []
    ensures Pending(fetch, start, fetched[..|fetched| - 1], queue) ==> Pending(fetch, start, fetched, queue[1..] + links)
  {
    var n := |fetched| - 1;
    assert forall k :: 0 <= k < n ==> fetched[..n][k] == fetched[k];
    if Pending(fetch, start, fetched[..n], queue) {
      forall address | Reached(fetch, start, fetched, address) ensures address in fetched || address in queue[1..] + links {
        if Reached(fetch, start, fetched[..n], address) {
          assert queue == [queue[0]] + queue[1..];
          assert fetched == fetched[..n] + [fetched[n]];
        } else {
          var k :| 0 <= k < |fetched| && fetch(fetched[k]).Some? && address in fetch(fetched[k]).value.links;
        }
      }
    }
  }

  lemma QueueReached(fetch: Fetch, start: string, fetched: seq<string>, queue: seq<string>, links: seq<string>)
    requires fetched != [] && Searched(fetch, start, fetched, queue)
    requires links == match fetch(fetched[|fetched| - 1]) case Some(page) => page.links case None => []
    ensures Searched(fetch, start, fetched, queue + links)
  {
    forall k | 0 <= k < |links| ensures Reached(fetch, start, fetched, links[k]) {
      assert links[k] in links;
    }
  }
}
