/** The bounded breadth-first crawl. Fetching is an arbitrary function from a path to the links of its page,
    or to nothing when the page cannot be fetched. */
module Crawl {
  import opened Basics
  import opened FirstBy
  import opened Ordering

  type Fetch = string -> Option<seq<string>>

  datatype QueueItem = QueueItem(path: string, depth: nat)

  // ----- the specification: distances in the link graph -----

  function LinksOf(fetch: Fetch, path: string): seq<string> {
    match fetch(path)
    case Some(links) => links
    case None => []
  }

  /** The paths some chain of exactly n links leads to, every page on the way being fetchable. */
  ghost function At(fetch: Fetch, start: string, n: nat): set<string> {
    if n == 0 then {start}
    else set p, l | p in At(fetch, start, n - 1) && l in LinksOf(fetch, p) :: l
  }

  ghost predicate Shortest(fetch: Fetch, start: string, path: string, d: nat) {
    path in At(fetch, start, d) && forall i: nat :: i < d ==> path !in At(fetch, start, i)
  }

  ghost predicate Within(fetch: Fetch, start: string, maxDepth: int, p: string) {
    exists d: nat :: (d == 0 || d <= maxDepth) && p in At(fetch, start, d)
  }

  function TotalLinks(fetch: Fetch, pages: seq<string>): nat
    decreases |pages|
  {
    if pages == [] then 0
    else TotalLinks(fetch, pages[..|pages| - 1]) + |LinksOf(fetch, pages[|pages| - 1])|
  }

  // ----- what the worklist keeps -----

  ghost predicate InQueue(queue: seq<QueueItem>, path: string, depth: nat) {
    exists i :: 0 <= i < |queue| && queue[i].path == path && queue[i].depth <= depth
  }

  ghost predicate Pending(queue: seq<QueueItem>, depth: nat) {
    exists i :: 0 <= i < |queue| && queue[i].depth <= depth
  }

  /** dist holds, for every visited path, the depth it was visited at. Depths are real distances, and
      the queue holds at most two neighbouring depths, in order, none below a visited one. */
  ghost predicate Layered(fetch: Fetch, start: string, maxDepth: int, dist: map<string, nat>, queue: seq<QueueItem>) {
    && (forall p :: p in dist ==> GoodDepth(fetch, start, maxDepth, p, dist[p]))
    && (forall i :: 0 <= i < |queue| ==> GoodDepth(fetch, start, maxDepth, queue[i].path, queue[i].depth))
    && InOrder(dist, queue)
  }

  ghost predicate GoodDepth(fetch: Fetch, start: string, maxDepth: int, path: string, depth: nat) {
    path in At(fetch, start, depth) && (depth == 0 || depth <= maxDepth)
  }

  ghost predicate InOrder(dist: map<string, nat>, queue: seq<QueueItem>) {
    && (forall i, j :: 0 <= i < j < |queue| ==> queue[i].depth <= queue[j].depth <= queue[i].depth + 1)
    && (forall p, i :: p in dist && 0 <= i < |queue| ==> dist[p] <= queue[i].depth)
  }

  /** Nothing was lost: the start and every link of an expanded page are visited or queued in time. */
  ghost predicate Closed(fetch: Fetch, start: string, maxDepth: int, dist: map<string, nat>, queue: seq<QueueItem>) {
    && Reached(dist, queue, start, 0)
    && (forall p, l :: p in dist && dist[p] < maxDepth && l in LinksOf(fetch, p) ==> Reached(dist, queue, l, dist[p] + 1))
  }

  ghost predicate Reached(dist: map<string, nat>, queue: seq<QueueItem>, path: string, depth: nat) {
    (path in dist && dist[path] <= depth) || InQueue(queue, path, depth)
  }

  /** Every path at a distance within bounds is visited by then, or something that early is still pending. */
  lemma {:induction false} Covered(fetch: Fetch, start: string, maxDepth: int, dist: map<string, nat>, queue: seq<QueueItem>,
                                   path: string, n: nat)
    requires Closed(fetch, start, maxDepth, dist, queue) && path in At(fetch, start, n) && (n == 0 || n <= maxDepth)
    ensures (path in dist && dist[path] <= n) || Pending(queue, n)
    decreases n
  {
    if n > 0 {
      var p :| p in At(fetch, start, n - 1) && path in LinksOf(fetch, p);
      Covered(fetch, start, maxDepth, dist, queue, p, n - 1);
      if p in dist && dist[p] <= n - 1 {
        assert Reached(dist, queue, path, dist[p] + 1);
      }
    }
  }

  /** The path at the head of the queue is at its shortest distance. */
  lemma HeadIsShortest(fetch: Fetch, start: string, maxDepth: int, dist: map<string, nat>, queue: seq<QueueItem>)
    requires Layered(fetch, start, maxDepth, dist, queue) && Closed(fetch, start, maxDepth, dist, queue)
    requires queue != [] && queue[0].path !in dist
    ensures Shortest(fetch, start, queue[0].path, queue[0].depth)
  {
    var path, d := queue[0].path, queue[0].depth;
    forall i: nat | i < d ensures path !in At(fetch, start, i) {
      assert !Pending(queue, i);
      if path in At(fetch, start, i) {
        Covered(fetch, start, maxDepth, dist, queue, path, i);
      }
    }
  }

  lemma OrderStep(dist: map<string, nat>, queue: seq<QueueItem>, more: seq<QueueItem>)
    requires InOrder(dist, queue) && queue != []
    requires forall i :: 0 <= i < |more| ==> more[i].depth == queue[0].depth + 1
    ensures InOrder(dist[queue[0].path := queue[0].depth], queue[1..] + more)
    ensures InOrder(dist, queue[1..])
  {
    var head, next := queue[0], queue[1..] + more;
    forall i | 0 <= i < |next| ensures head.depth <= next[i].depth <= head.depth + 1 {
      assert next[i] == if i < |queue| - 1 then queue[i + 1] else more[i - (|queue| - 1)];
    }
    forall i, j | 0 <= i < j < |next| ensures next[i].depth <= next[j].depth {
      if j < |queue| - 1 {
        assert next[i] == queue[i + 1] && next[j] == queue[j + 1];
      }
    }
  }

  /** One step of the loop: the head is dropped, or visited and expanded. */
  lemma LayeredStep(fetch: Fetch, start: string, maxDepth: int, dist: map<string, nat>, queue: seq<QueueItem>, more: seq<QueueItem>)
    requires Layered(fetch, start, maxDepth, dist, queue) && queue != []
    requires forall i :: 0 <= i < |more| ==> more[i].depth == queue[0].depth + 1 && queue[0].depth < maxDepth
                                             && more[i].path in LinksOf(fetch, queue[0].path)
    ensures Layered(fetch, start, maxDepth, dist[queue[0].path := queue[0].depth], queue[1..] + more)
    ensures Layered(fetch, start, maxDepth, dist, queue[1..])
  {
    OrderStep(dist, queue, more);
    var next := queue[1..] + more;
    forall i | 0 <= i < |next| ensures GoodDepth(fetch, start, maxDepth, next[i].path, next[i].depth) {
      if i < |queue| - 1 {
        assert next[i] == queue[i + 1];
      } else {
        assert next[i] == more[i - (|queue| - 1)];
        assert GoodDepth(fetch, start, maxDepth, queue[0].path, queue[0].depth);
      }
    }
  }

  lemma InQueueStep(queue: seq<QueueItem>, more: seq<QueueItem>, path: string, depth: nat)
    requires queue != [] && InQueue(queue, path, depth)
    ensures InQueue(queue[1..] + more, path, depth) || (queue[0].path == path && queue[0].depth <= depth)
  {
    var i :| 0 <= i < |queue| && queue[i].path == path && queue[i].depth <= depth;
    if i > 0 {
      assert (queue[1..] + more)[i - 1] == queue[i];
    }
  }

  /** The head was seen before: leaving it out loses nothing. */
  lemma ClosedSkip(fetch: Fetch, start: string, maxDepth: int, dist: map<string, nat>, queue: seq<QueueItem>)
    requires Layered(fetch, start, maxDepth, dist, queue) && Closed(fetch, start, maxDepth, dist, queue)
    requires queue != [] && queue[0].path in dist
    ensures Closed(fetch, start, maxDepth, dist, queue[1..])
  {
    assert queue[1..] + [] == queue[1..];
    forall path: string, depth: nat | Reached(dist, queue, path, depth) ensures Reached(dist, queue[1..], path, depth) {
      if InQueue(queue, path, depth) {
        InQueueStep(queue, [], path, depth);
      }
    }
  }

  ghost predicate Holds(queue: seq<QueueItem>, path: string, depth: nat) {
    exists i :: 0 <= i < |queue| && queue[i] == QueueItem(path, depth)
  }

  lemma ClosedVisit(fetch: Fetch, start: string, maxDepth: int, dist: map<string, nat>, queue: seq<QueueItem>, more: seq<QueueItem>)
    requires Layered(fetch, start, maxDepth, dist, queue) && Closed(fetch, start, maxDepth, dist, queue)
    requires queue != [] && queue[0].path !in dist
    requires queue[0].depth < maxDepth ==>
               forall l :: l in LinksOf(fetch, queue[0].path) ==>
                 l == queue[0].path || l in dist || Holds(queue[1..] + more, l, queue[0].depth + 1)
    ensures Closed(fetch, start, maxDepth, dist[queue[0].path := queue[0].depth], queue[1..] + more)
  {
    var head := queue[0];
    var dist', next := dist[head.path := head.depth], queue[1..] + more;
    forall path: string, depth: nat | Reached(dist, queue, path, depth) ensures Reached(dist', next, path, depth) {
      if InQueue(queue, path, depth) {
        InQueueStep(queue, more, path, depth);
      }
    }
    forall p, l | p in dist' && dist'[p] < maxDepth && l in LinksOf(fetch, p) ensures Reached(dist', next, l, dist'[p] + 1) {
      if p != head.path {
        assert Reached(dist, queue, l, dist[p] + 1);
      }
    }
  }

  // ----- the loop -----

  /** The links not visited yet, in order. */
  function Unvisited(links: seq<string>, visited: set<string>): seq<string>
    decreases |links|
  {
    if links == [] then []
    else
      var n := |links| - 1;
      var rest := Unvisited(links[..n], visited);
      if links[n] in visited then rest else rest + [links[n]]
  }

  function Paths(items: seq<QueueItem>): seq<string> {
    seq(|items|, i requires 0 <= i < |items| => items[i].path)
  }

  /** The links of one page, queued unless visited or over the cap. */
  method Enqueue(links: seq<string>, depth: nat, visited: set<string>, queue: seq<QueueItem>, pages: nat, maxPages: nat)
    returns (next: seq<QueueItem>, ghost more: seq<QueueItem>, ghost dropped: bool)
    requires |queue| + pages <= maxPages
    ensures next == queue + more && forall i :: 0 <= i < |more| ==> more[i].depth == depth + 1
    ensures Paths(more) == Take(Unvisited(links, visited), maxPages - |queue| - pages)
    ensures dropped <==> |Unvisited(links, visited)| > maxPages - |queue| - pages
  {
    next, more, dropped := queue, [], false;
    for k := 0 to |links|
      invariant next == queue + more && forall i :: 0 <= i < |more| ==> more[i].depth == depth + 1
      invariant Paths(more) == Take(Unvisited(links[..k], visited), maxPages - |queue| - pages)
      invariant dropped <==> |Unvisited(links[..k], visited)| > maxPages - |queue| - pages
    {
      var link := links[k];
      UnvisitedStep(links, k, visited, more, depth, maxPages - |queue| - pages);
      if link in visited || |next| + pages >= maxPages {
        dropped := dropped || link !in visited;
        continue;
      }
      var item := QueueItem(link, depth + 1);
      next := next + [item];
      more := more + [item];
    }
    assert links[..|links|] == links;
  }

  lemma UnvisitedStep(links: seq<string>, k: nat, visited: set<string>, more: seq<QueueItem>, depth: nat, room: nat)
    requires k < |links| && Paths(more) == Take(Unvisited(links[..k], visited), room)
    ensures Take(Unvisited(links[..k + 1], visited), room)
         == if links[k] in visited || |more| >= room then Paths(more) else Paths(more + [QueueItem(links[k], depth + 1)])
    ensures |Unvisited(links[..k + 1], visited)| == |Unvisited(links[..k], visited)| + if links[k] in visited then 0 else 1
    ensures |more| <= room && (|more| < room ==> |Unvisited(links[..k], visited)| == |more|)
    ensures |more| >= room ==> |Unvisited(links[..k], visited)| >= room
  {
    assert links[..k + 1][..k] == links[..k];
    assert |Paths(more)| == |more|;
    assert Paths(more + [QueueItem(links[k], depth + 1)]) == Paths(more) + [links[k]];
  }

  lemma {:induction false} UnvisitedFacts(links: seq<string>, visited: set<string>)
    ensures |Unvisited(links, visited)| <= |links|
    ensures forall l :: l in Unvisited(links, visited) <==> l in links && l !in visited
    decreases |links|
  {
    if links != [] {
      var n := |links| - 1;
      UnvisitedFacts(links[..n], visited);
      assert links == links[..n] + [links[n]];
    }
  }

  /** What was queued are links of the page, and all the new ones unless the cap was reached. */
  lemma EnqueuedFacts(links: seq<string>, depth: nat, visited: set<string>, queue: seq<QueueItem>, more: seq<QueueItem>,
                      room: nat, dropped: bool)
    requires Paths(more) == Take(Unvisited(links, visited), room) && (dropped <==> |Unvisited(links, visited)| > room)
    requires forall i :: 0 <= i < |more| ==> more[i].depth == depth + 1
    ensures |more| <= |links| && |more| <= room && (dropped ==> |more| < |links| && |more| == room)
    ensures forall i :: 0 <= i < |more| ==> more[i].path in links
    ensures !dropped ==> forall l :: l in links ==> l in visited || Holds(queue + more, l, depth + 1)
  {
    var fits := Unvisited(links, visited);
    UnvisitedFacts(links, visited);
    assert |Paths(more)| == |more|;
    forall i | 0 <= i < |more| ensures more[i].path in links {
      assert Paths(more)[i] == fits[i] && fits[i] in fits;
    }
    if !dropped {
      forall l | l in links && l !in visited ensures Holds(queue + more, l, depth + 1) {
        var i :| 0 <= i < |fits| && fits[i] == l;
        assert Paths(more)[i] == l;
        assert (queue + more)[|queue| + i] == QueueItem(l, depth + 1);
      }
    }
  }

  lemma RunningStart(fetch: Fetch, start: string, maxDepth: int, maxPages: nat)
    requires maxPages >= 1
    ensures Running(fetch, start, maxDepth, maxPages, map[], [QueueItem(start, 0)], [], false)
  {
    var queue := [QueueItem(start, 0)];
    assert queue[0].path == start;
    assert InQueue(queue, start, 0);
  }

  /** The pages so far: the fetchable visited paths, in the order of their depths. */
  ghost predicate Collected(fetch: Fetch, dist: map<string, nat>, pages: seq<string>) {
    && NoDup(pages)
    && (forall p :: p in pages <==> p in dist && fetch(p).Some?)
    && (forall i, j :: 0 <= i < j < |pages| ==> dist[pages[i]] <= dist[pages[j]])
  }

  lemma CollectedVisit(fetch: Fetch, dist: map<string, nat>, pages: seq<string>, path: string, depth: nat)
    requires Collected(fetch, dist, pages) && path !in dist && forall p :: p in dist ==> dist[p] <= depth
    ensures Collected(fetch, dist[path := depth], if fetch(path).Some? then pages + [path] else pages)
  {
    var dist' := dist[path := depth];
    assert forall i :: 0 <= i < |pages| ==> pages[i] in dist && pages[i] != path && dist'[pages[i]] == dist[pages[i]] by {
      forall i | 0 <= i < |pages| ensures pages[i] in dist { assert pages[i] in pages; }
    }
  }

  ghost predicate AllShortest(fetch: Fetch, start: string, dist: map<string, nat>) {
    forall p :: p in dist ==> Shortest(fetch, start, p, dist[p])
  }

  /** What holds before every round of the loop. */
  ghost predicate Running(fetch: Fetch, start: string, maxDepth: int, maxPages: nat, dist: map<string, nat>,
                          queue: seq<QueueItem>, pages: seq<string>, dropped: bool) {
    && |queue| + |pages| <= maxPages
    && Layered(fetch, start, maxDepth, dist, queue)
    && Collected(fetch, dist, pages)
    && (!dropped ==> Closed(fetch, start, maxDepth, dist, queue) && AllShortest(fetch, start, dist))
    && |queue| + |pages| <= 1 + TotalLinks(fetch, pages)
    && (dropped ==> 1 + TotalLinks(fetch, pages) > maxPages)
  }

  lemma RunningSkip(fetch: Fetch, start: string, maxDepth: int, maxPages: nat, dist: map<string, nat>,
                    queue: seq<QueueItem>, pages: seq<string>, dropped: bool)
    requires Running(fetch, start, maxDepth, maxPages, dist, queue, pages, dropped)
    requires queue != [] && queue[0].path in dist
    ensures Running(fetch, start, maxDepth, maxPages, dist, queue[1..], pages, dropped)
  {
    LayeredStep(fetch, start, maxDepth, dist, queue, []);
    if !dropped {
      ClosedSkip(fetch, start, maxDepth, dist, queue);
    }
  }

  lemma TotalLinksAppend(fetch: Fetch, pages: seq<string>, path: string)
    ensures TotalLinks(fetch, pages + [path]) == TotalLinks(fetch, pages) + |LinksOf(fetch, path)|
  {
    assert (pages + [path])[..|pages|] == pages;
  }

  /** more and lost as Enqueue leaves them for the page of the head. */
  ghost predicate Expanded(fetch: Fetch, maxDepth: int, dist: map<string, nat>, queue: seq<QueueItem>, more: seq<QueueItem>, lost: bool)
    requires queue != []
  {
    var head := queue[0];
    && |more| <= |LinksOf(fetch, head.path)| && (lost ==> |more| < |LinksOf(fetch, head.path)|)
    && (forall i :: 0 <= i < |more| ==> more[i].depth == head.depth + 1 && head.depth < maxDepth
                                        && more[i].path in LinksOf(fetch, head.path))
    && (!lost && head.depth < maxDepth ==>
          forall l :: l in LinksOf(fetch, head.path) ==>
            l == head.path || l in dist || Holds(queue[1..] + more, l, head.depth + 1))
  }

  lemma VisitLosesNothing(fetch: Fetch, start: string, maxDepth: int, dist: map<string, nat>, queue: seq<QueueItem>,
                          more: seq<QueueItem>)
    requires Layered(fetch, start, maxDepth, dist, queue) && Closed(fetch, start, maxDepth, dist, queue)
    requires AllShortest(fetch, start, dist)
    requires queue != [] && queue[0].path !in dist && Expanded(fetch, maxDepth, dist, queue, more, false)
    ensures var dist' := dist[queue[0].path := queue[0].depth];
            Closed(fetch, start, maxDepth, dist', queue[1..] + more) && AllShortest(fetch, start, dist')
  {
    HeadIsShortest(fetch, start, maxDepth, dist, queue);
    ClosedVisit(fetch, start, maxDepth, dist, queue, more);
  }

  lemma RunningVisit(fetch: Fetch, start: string, maxDepth: int, maxPages: nat, dist: map<string, nat>,
                     queue: seq<QueueItem>, pages: seq<string>, dropped: bool, more: seq<QueueItem>, lost: bool)
    requires Running(fetch, start, maxDepth, maxPages, dist, queue, pages, dropped)
    requires queue != [] && queue[0].path !in dist && Expanded(fetch, maxDepth, dist, queue, more, lost)
    requires fetch(queue[0].path).None? ==> !lost
    requires var pages' := if fetch(queue[0].path).Some? then pages + [queue[0].path] else pages;
             |queue[1..] + more| + |pages'| <= maxPages && (lost ==> |queue[1..] + more| + |pages'| == maxPages)
    ensures var pages' := if fetch(queue[0].path).Some? then pages + [queue[0].path] else pages;
            Running(fetch, start, maxDepth, maxPages, dist[queue[0].path := queue[0].depth], queue[1..] + more, pages', dropped || lost)
  {
    var head := queue[0];
    assert forall p :: p in dist ==> dist[p] <= queue[0].depth;
    if !dropped && !lost {
      VisitLosesNothing(fetch, start, maxDepth, dist, queue, more);
    }
    LayeredStep(fetch, start, maxDepth, dist, queue, more);
    CollectedVisit(fetch, dist, pages, head.path, head.depth);
    TotalLinksAppend(fetch, pages, head.path);
  }

  // ----- what is certain even when the cap drops links -----

  /** queued holds exactly the paths visited or still in the queue. */
  ghost predicate Queued(queued: set<string>, dist: map<string, nat>, queue: seq<QueueItem>) {
    && (forall p :: p in dist ==> p in queued)
    && (forall i :: 0 <= i < |queue| ==> queue[i].path in queued)
    && (forall p :: p in queued ==> p in dist || p in Paths(queue))
  }

  lemma QueuedVisit(queued: set<string>, dist: map<string, nat>, queue: seq<QueueItem>, more: seq<QueueItem>)
    requires Queued(queued, dist, queue) && queue != []
    ensures Queued(queued + Elements(Paths(more)), dist[queue[0].path := queue[0].depth], queue[1..] + more)
  {
    var dist', next := dist[queue[0].path := queue[0].depth], queue[1..] + more;
    assert Paths(queue) == [queue[0].path] + Paths(queue[1..]);
    assert Paths(next) == Paths(queue[1..]) + Paths(more);
    forall i | 0 <= i < |next| ensures next[i].path in queued + Elements(Paths(more)) {
      if i < |queue| - 1 {
        assert next[i] == queue[i + 1];
      } else {
        assert next[i] == more[i - (|queue| - 1)] && Paths(more)[i - (|queue| - 1)] == next[i].path;
      }
    }
  }

  lemma QueuedSkip(queued: set<string>, dist: map<string, nat>, queue: seq<QueueItem>)
    requires Queued(queued, dist, queue) && queue != [] && queue[0].path in dist
    ensures Queued(queued, dist, queue[1..])
  {
    var tail := queue[1..];
    assert forall i :: 0 <= i < |tail| ==> tail[i] == queue[i + 1];
    forall p | p in queued && p !in dist ensures p in Paths(tail) {
      var i :| 0 <= i < |queue| && Paths(queue)[i] == p;
      assert Paths(tail)[i - 1] == p;
    }
  }

  /** The first links of the start, leaving out those back to it, as many as the cap leaves room for. */
  ghost function FirstLinks(fetch: Fetch, start: string, maxDepth: int, maxPages: nat): seq<string>
    requires maxPages >= 1
  {
    if maxDepth >= 1 then Take(Unvisited(LinksOf(fetch, start), {start}), maxPages - 1) else []
  }

  /** Every path at least one link from the start within bounds is fetchable, and no path is linked twice from
      pages that are expanded, nor the start at all. */
  ghost predicate Tidy(fetch: Fetch, start: string, maxDepth: int) {
    && (forall p :: Within(fetch, start, maxDepth, p) ==> fetch(p).Some?)
    && (forall p, i :: Expandable(fetch, start, maxDepth, p) && 0 <= i < |LinksOf(fetch, p)| ==> LinksOf(fetch, p)[i] != start)
    && (forall p, q, i, j ::
          Expandable(fetch, start, maxDepth, p) && Expandable(fetch, start, maxDepth, q)
          && 0 <= i < |LinksOf(fetch, p)| && 0 <= j < |LinksOf(fetch, q)| && LinksOf(fetch, p)[i] == LinksOf(fetch, q)[j] ==>
            p == q && i == j)
  }

  ghost predicate Expandable(fetch: Fetch, start: string, maxDepth: int, p: string) {
    exists d: nat :: d < maxDepth && p in At(fetch, start, d)
  }

  /** All paths within bounds. */
  ghost function Reachable(fetch: Fetch, start: string, n: nat): set<string> {
    At(fetch, start, n) + if n == 0 then {} else Reachable(fetch, start, n - 1)
  }

  lemma {:induction false} ReachableIff(fetch: Fetch, start: string, n: nat, p: string)
    ensures p in Reachable(fetch, start, n) <==> InFirst(fetch, start, n, p)
  {
    if n > 0 {
      ReachableIff(fetch, start, n - 1, p);
      if InFirst(fetch, start, n - 1, p) {
        var d: nat :| d <= n - 1 && p in At(fetch, start, d);
        assert d <= n;
      }
    }
    if p in At(fetch, start, n) {
      assert InFirst(fetch, start, n, p);
    }
  }

  ghost predicate InFirst(fetch: Fetch, start: string, n: nat, p: string) {
    exists d: nat :: d <= n && p in At(fetch, start, d)
  }

  ghost predicate Linked(fetch: Fetch, start: string, maxDepth: int, dist: map<string, nat>, x: string) {
    x == start || exists q :: q in dist && dist[q] < maxDepth && x in LinksOf(fetch, q)
  }

  /** In a tidy site nothing is queued twice, and once a link was dropped the cap stays filled. */
  ghost predicate TidyRun(fetch: Fetch, start: string, maxDepth: int, maxPages: nat, dist: map<string, nat>,
                          queue: seq<QueueItem>, pages: seq<string>, dropped: bool) {
    && NoDup(Paths(queue))
    && (forall i :: 0 <= i < |queue| ==> queue[i].path !in dist && Linked(fetch, start, maxDepth, dist, queue[i].path))
    && (forall p :: p in dist ==> Linked(fetch, start, maxDepth, dist, p))
    && (dropped ==> |queue| + |pages| == maxPages)
  }

  lemma OneLink(fetch: Fetch, start: string, maxDepth: int, p: string, i: nat, q: string, j: nat)
    requires Tidy(fetch, start, maxDepth) && p != q
    requires Expandable(fetch, start, maxDepth, p) && Expandable(fetch, start, maxDepth, q)
    requires i < |LinksOf(fetch, p)| && j < |LinksOf(fetch, q)|
    ensures LinksOf(fetch, p)[i] != LinksOf(fetch, q)[j]
  {
  }

  lemma NotLinkedYet(fetch: Fetch, start: string, maxDepth: int, dist: map<string, nat>, p: string, i: nat)
    requires Tidy(fetch, start, maxDepth) && p !in dist && Expandable(fetch, start, maxDepth, p)
    requires i < |LinksOf(fetch, p)| && forall q :: q in dist ==> GoodDepth(fetch, start, maxDepth, q, dist[q])
    ensures !Linked(fetch, start, maxDepth, dist, LinksOf(fetch, p)[i])
  {
    forall q | q in dist && dist[q] < maxDepth ensures LinksOf(fetch, p)[i] !in LinksOf(fetch, q) {
      assert Expandable(fetch, start, maxDepth, q);
      forall j: nat | j < |LinksOf(fetch, q)| ensures LinksOf(fetch, p)[i] != LinksOf(fetch, q)[j] {
        OneLink(fetch, start, maxDepth, p, i, q, j);
      }
    }
  }

  /** The links of an expanded page are new, and different from each other. */
  lemma TidyLinks(fetch: Fetch, start: string, maxDepth: int, maxPages: nat, dist: map<string, nat>,
                  queue: seq<QueueItem>, pages: seq<string>, dropped: bool)
    requires Tidy(fetch, start, maxDepth) && TidyRun(fetch, start, maxDepth, maxPages, dist, queue, pages, dropped)
    requires Layered(fetch, start, maxDepth, dist, queue) && queue != [] && queue[0].depth < maxDepth
    ensures NoDup(LinksOf(fetch, queue[0].path))
    ensures forall l :: l in LinksOf(fetch, queue[0].path) ==> l !in dist && l !in Paths(queue)
  {
    var head, links := queue[0].path, LinksOf(fetch, queue[0].path);
    assert Expandable(fetch, start, maxDepth, head);
    forall i: nat | i < |links| ensures !Linked(fetch, start, maxDepth, dist, links[i]) {
      NotLinkedYet(fetch, start, maxDepth, dist, head, i);
    }
  }

  lemma {:induction false} AllUnvisited(links: seq<string>, visited: set<string>)
    requires forall l :: l in links ==> l !in visited
    ensures Unvisited(links, visited) == links
    decreases |links|
  {
    if links != [] {
      AllUnvisited(links[..|links| - 1], visited);
      assert links == links[..|links| - 1] + [links[|links| - 1]];
    }
  }

  lemma LinkedLater(fetch: Fetch, start: string, maxDepth: int, dist: map<string, nat>, path: string, depth: nat, x: string)
    requires Linked(fetch, start, maxDepth, dist, x) && path !in dist
    ensures Linked(fetch, start, maxDepth, dist[path := depth], x)
  {
    if x != start {
      var q :| q in dist && dist[q] < maxDepth && x in LinksOf(fetch, q);
      assert q in dist[path := depth] && dist[path := depth][q] == dist[q];
    }
  }

  /** The new links of the head, or none. */
  ghost predicate LinksAdded(fetch: Fetch, maxDepth: int, head: QueueItem, more: seq<QueueItem>) {
    if head.depth < maxDepth then Paths(more) <= LinksOf(fetch, head.path) else more == []
  }

  lemma AddedAre(fetch: Fetch, maxDepth: int, head: QueueItem, more: seq<QueueItem>)
    requires LinksAdded(fetch, maxDepth, head, more)
    ensures forall x :: x in Paths(more) ==> x in LinksOf(fetch, head.path) && head.depth < maxDepth
    ensures NoDup(LinksOf(fetch, head.path)) ==> NoDup(Paths(more))
  {
    if head.depth < maxDepth {
      forall x | x in Paths(more) ensures x in LinksOf(fetch, head.path) {
        var i :| 0 <= i < |more| && Paths(more)[i] == x;
        assert LinksOf(fetch, head.path)[i] == x;
      }
    } else {
      assert Paths(more) == [];
    }
  }

  lemma TidyMore(fetch: Fetch, start: string, maxDepth: int, maxPages: nat, dist: map<string, nat>,
                 queue: seq<QueueItem>, pages: seq<string>, dropped: bool, more: seq<QueueItem>)
    requires Tidy(fetch, start, maxDepth) && TidyRun(fetch, start, maxDepth, maxPages, dist, queue, pages, dropped)
    requires Layered(fetch, start, maxDepth, dist, queue) && queue != [] && LinksAdded(fetch, maxDepth, queue[0], more)
    ensures NoDup(Paths(queue[1..]) + Paths(more))
    ensures forall x :: x in Paths(more) ==>
              x !in dist && x != queue[0].path && x in LinksOf(fetch, queue[0].path) && queue[0].depth < maxDepth
  {
    var tail := Paths(queue[1..]);
    assert Paths(queue) == [queue[0].path] + tail;
    AddedAre(fetch, maxDepth, queue[0], more);
    assert NoDup(tail) by {
      assert forall i :: 0 <= i < |tail| ==> tail[i] == Paths(queue)[i + 1];
    }
    if queue[0].depth < maxDepth {
      TidyLinks(fetch, start, maxDepth, maxPages, dist, queue, pages, dropped);
      assert queue[0].path in Paths(queue);
    } else {
      assert Paths(more) == [];
    }
    NoDupJoin(tail, Paths(more));
  }

  lemma TidyQueue(fetch: Fetch, start: string, maxDepth: int, maxPages: nat, dist: map<string, nat>,
                  queue: seq<QueueItem>, pages: seq<string>, dropped: bool, more: seq<QueueItem>)
    requires TidyRun(fetch, start, maxDepth, maxPages, dist, queue, pages, dropped) && queue != []
    requires forall x :: x in Paths(more) ==>
               x !in dist && x != queue[0].path && x in LinksOf(fetch, queue[0].path) && queue[0].depth < maxDepth
    ensures var dist', next := dist[queue[0].path := queue[0].depth], queue[1..] + more;
            forall i :: 0 <= i < |next| ==> next[i].path !in dist' && Linked(fetch, start, maxDepth, dist', next[i].path)
  {
    var head, dist', next := queue[0], dist[queue[0].path := queue[0].depth], queue[1..] + more;
    forall i | 0 <= i < |next| ensures next[i].path !in dist' && Linked(fetch, start, maxDepth, dist', next[i].path) {
      if i < |queue| - 1 {
        assert next[i] == queue[i + 1] && Paths(queue)[i + 1] != Paths(queue)[0];
        LinkedLater(fetch, start, maxDepth, dist, head.path, head.depth, next[i].path);
      } else {
        assert Paths(more)[i - (|queue| - 1)] == next[i].path;
        assert head.path in dist';
      }
    }
  }

  lemma TidyVisit(fetch: Fetch, start: string, maxDepth: int, maxPages: nat, dist: map<string, nat>,
                  queue: seq<QueueItem>, pages: seq<string>, dropped: bool, more: seq<QueueItem>, lost: bool)
    requires Tidy(fetch, start, maxDepth) && TidyRun(fetch, start, maxDepth, maxPages, dist, queue, pages, dropped)
    requires Layered(fetch, start, maxDepth, dist, queue) && queue != [] && LinksAdded(fetch, maxDepth, queue[0], more)
    requires |queue[1..] + more| + |pages| + 1 <= maxPages
    requires lost ==> |queue[1..] + more| + |pages| + 1 == maxPages
    ensures TidyRun(fetch, start, maxDepth, maxPages, dist[queue[0].path := queue[0].depth], queue[1..] + more,
                    pages + [queue[0].path], dropped || lost)
  {
    var head := queue[0];
    var dist', next := dist[head.path := head.depth], queue[1..] + more;
    TidyMore(fetch, start, maxDepth, maxPages, dist, queue, pages, dropped, more);
    TidyQueue(fetch, start, maxDepth, maxPages, dist, queue, pages, dropped, more);
    assert Paths(next) == Paths(queue[1..]) + Paths(more);
    forall p | p in dist' ensures Linked(fetch, start, maxDepth, dist', p) {
      assert Linked(fetch, start, maxDepth, dist, p);
      LinkedLater(fetch, start, maxDepth, dist, head.path, head.depth, p);
    }
  }

  lemma NoDupJoin(a: seq<string>, b: seq<string>)
    requires NoDup(a) && NoDup(b) && forall x :: x in b ==> x !in a
    ensures NoDup(a + b)
  {
    var c := a + b;
    forall i, j | 0 <= i < j < |c| ensures c[i] != c[j] {
      if i < |a| <= j {
        assert c[i] in a && c[j] in b;
      }
    }
  }

  /** The links of the start that surely fit are queued once it was expanded. */
  ghost predicate FirstQueued(fetch: Fetch, start: string, maxDepth: int, maxPages: nat, queued: set<string>)
    requires maxPages >= 1
  {
    fetch(start).Some? ==> forall l :: l in FirstLinks(fetch, start, maxDepth, maxPages) ==> l in queued
  }

  /** more as Enqueue leaves it for the page of the head, if that is fetchable and not too deep. */
  ghost predicate MoreOf(fetch: Fetch, maxDepth: int, maxPages: nat, dist: map<string, nat>, queue: seq<QueueItem>,
                         pages: seq<string>, more: seq<QueueItem>)
    requires queue != []
  {
    var head := queue[0];
    if fetch(head.path).Some? && head.depth < maxDepth then
      |queue| + |pages| <= maxPages
      && Paths(more) == Take(Unvisited(LinksOf(fetch, head.path), dist.Keys + {head.path}), maxPages - |queue| - |pages|)
    else more == []
  }

  lemma FirstVisit(fetch: Fetch, start: string, maxDepth: int, maxPages: nat, more: seq<QueueItem>, queued: set<string>)
    requires maxPages >= 1 && MoreOf(fetch, maxDepth, maxPages, map[], [QueueItem(start, 0)], [], more)
    ensures FirstQueued(fetch, start, maxDepth, maxPages, queued + Elements(Paths(more)))
  {
    var none: map<string, nat> := map[];
    assert none.Keys + {start} == {start};
  }

  lemma TidyFetchable(fetch: Fetch, start: string, maxDepth: int, dist: map<string, nat>, queue: seq<QueueItem>)
    requires Tidy(fetch, start, maxDepth) && Layered(fetch, start, maxDepth, dist, queue) && queue != []
    ensures fetch(queue[0].path).Some?
  {
    assert GoodDepth(fetch, start, maxDepth, queue[0].path, queue[0].depth);
    assert Within(fetch, start, maxDepth, queue[0].path);
  }

  lemma TidyAfter(fetch: Fetch, start: string, maxDepth: int, maxPages: nat, dist: map<string, nat>,
                  queue: seq<QueueItem>, pages: seq<string>, dropped: bool, more: seq<QueueItem>)
    requires Tidy(fetch, start, maxDepth) && TidyRun(fetch, start, maxDepth, maxPages, dist, queue, pages, dropped)
    requires Layered(fetch, start, maxDepth, dist, queue) && queue != [] && fetch(queue[0].path).Some?
    requires MoreOf(fetch, maxDepth, maxPages, dist, queue, pages, more)
    ensures LinksAdded(fetch, maxDepth, queue[0], more)
  {
    var head := queue[0];
    if head.depth < maxDepth {
      TidyLinks(fetch, start, maxDepth, maxPages, dist, queue, pages, dropped);
      assert Paths(queue)[0] == head.path;
      AllUnvisited(LinksOf(fetch, head.path), dist.Keys + {head.path});
    }
  }

  /** What else holds before every round: where everything queued is, and that a tidy site fills the cap. */
  ghost predicate Steady(fetch: Fetch, start: string, maxDepth: int, maxPages: nat, dist: map<string, nat>,
                         queue: seq<QueueItem>, pages: seq<string>, dropped: bool, queued: set<string>)
    requires maxPages >= 1
  {
    && start in queued && Queued(queued, dist, queue)
    && (if dist == map[] then queue == [QueueItem(start, 0)] && pages == []
        else FirstQueued(fetch, start, maxDepth, maxPages, queued))
    && (Tidy(fetch, start, maxDepth) ==> TidyRun(fetch, start, maxDepth, maxPages, dist, queue, pages, dropped))
  }

  lemma SteadyStart(fetch: Fetch, start: string, maxDepth: int, maxPages: nat)
    requires maxPages >= 1
    ensures Steady(fetch, start, maxDepth, maxPages, map[], [QueueItem(start, 0)], [], false, {start})
  {
    assert Paths([QueueItem(start, 0)]) == [start];
  }

  lemma SteadySkip(fetch: Fetch, start: string, maxDepth: int, maxPages: nat, dist: map<string, nat>,
                   queue: seq<QueueItem>, pages: seq<string>, dropped: bool, queued: set<string>)
    requires maxPages >= 1 && Steady(fetch, start, maxDepth, maxPages, dist, queue, pages, dropped, queued)
    requires queue != [] && queue[0].path in dist
    ensures Steady(fetch, start, maxDepth, maxPages, dist, queue[1..], pages, dropped, queued)
  {
    QueuedSkip(queued, dist, queue);
  }

  lemma SteadyVisit(fetch: Fetch, start: string, maxDepth: int, maxPages: nat, dist: map<string, nat>,
                    queue: seq<QueueItem>, pages: seq<string>, dropped: bool, more: seq<QueueItem>, lost: bool,
                    queued: set<string>)
    requires maxPages >= 1 && Steady(fetch, start, maxDepth, maxPages, dist, queue, pages, dropped, queued)
    requires Layered(fetch, start, maxDepth, dist, queue) && queue != []
    requires MoreOf(fetch, maxDepth, maxPages, dist, queue, pages, more)
    requires fetch(queue[0].path).Some? ==>
               |queue[1..] + more| + |pages| + 1 <= maxPages && (lost ==> |queue[1..] + more| + |pages| + 1 == maxPages)
    ensures Steady(fetch, start, maxDepth, maxPages, dist[queue[0].path := queue[0].depth], queue[1..] + more,
                   if fetch(queue[0].path).Some? then pages + [queue[0].path] else pages, dropped || lost,
                   queued + Elements(Paths(more)))
  {
    QueuedVisit(queued, dist, queue, more);
    assert queue[0].path in dist[queue[0].path := queue[0].depth];
    if dist == map[] {
      FirstVisit(fetch, start, maxDepth, maxPages, more, queued);
    }
    if Tidy(fetch, start, maxDepth) {
      TidyFetchable(fetch, start, maxDepth, dist, queue);
      TidyAfter(fetch, start, maxDepth, maxPages, dist, queue, pages, dropped, more);
      TidyVisit(fetch, start, maxDepth, maxPages, dist, queue, pages, dropped, more, lost);
    }
  }

  /** The first links of the start, as many as the cap leaves room for, are pages or cannot be fetched. */
  ghost predicate FirstLinksDone(fetch: Fetch, start: string, maxDepth: int, maxPages: nat, pages: seq<string>) {
    var links := LinksOf(fetch, start);
    maxDepth >= 1 ==> forall k :: 0 <= k < |links| && links[k] != start && Others(links, start, k) < maxPages - 1 ==>
      links[k] in pages || fetch(links[k]).None?
  }

  /** The page count of a tidy site: all there is, up to the cap. */
  ghost predicate FullCount(fetch: Fetch, start: string, maxDepth: int, maxPages: nat, pages: seq<string>) {
    var all := |Reachable(fetch, start, Depth(maxDepth))|;
    |pages| == if maxPages <= all then maxPages else all
  }

  lemma AllDone(fetch: Fetch, start: string, maxDepth: int, maxPages: nat, dist: map<string, nat>,
                 pages: seq<string>, dropped: bool, queued: set<string>)
    requires maxPages >= 1 && Running(fetch, start, maxDepth, maxPages, dist, [], pages, dropped)
    requires Steady(fetch, start, maxDepth, maxPages, dist, [], pages, dropped, queued)
    ensures start in queued && forall p :: p in pages <==> p in queued && fetch(p).Some?
    ensures FirstLinksDone(fetch, start, maxDepth, maxPages, pages)
    ensures Tidy(fetch, start, maxDepth) ==> FullCount(fetch, start, maxDepth, maxPages, pages)
  {
    assert Paths([]) == [];
    var links := LinksOf(fetch, start);
    forall k | 0 <= k < |links| && links[k] != start && Others(links, start, k) < maxPages - 1 && maxDepth >= 1
      ensures links[k] in queued
    {
      FirstIsQueued(fetch, start, maxDepth, maxPages, k);
    }
    if Tidy(fetch, start, maxDepth) {
      PagesCount(fetch, start, maxDepth, maxPages, dist, pages, dropped);
    }
  }

  /** How many of the first k links lead elsewhere. */
  ghost function Others(links: seq<string>, start: string, k: nat): nat
    requires k <= |links|
  {
    |set i | 0 <= i < k && links[i] != start|
  }

  lemma {:induction false} OthersIs(links: seq<string>, start: string, k: nat)
    requires k <= |links|
    ensures |Unvisited(links[..k], {start})| == Others(links, start, k)
    decreases k
  {
    if k > 0 {
      OthersIs(links, start, k - 1);
      assert links[..k][..k - 1] == links[..k - 1];
      var a, b := set i | 0 <= i < k && links[i] != start, set i | 0 <= i < k - 1 && links[i] != start;
      assert a == if links[k - 1] != start then b + {k - 1} else b;
    }
  }

  lemma {:induction false} UnvisitedPrefix(links: seq<string>, visited: set<string>, k: nat)
    requires k <= |links|
    ensures Unvisited(links[..k], visited) <= Unvisited(links, visited)
    decreases |links|
  {
    if k < |links| {
      var n := |links| - 1;
      UnvisitedPrefix(links[..n], visited, k);
      assert links[..n][..k] == links[..k];
    } else {
      assert links[..k] == links;
    }
  }

  lemma FirstIsQueued(fetch: Fetch, start: string, maxDepth: int, maxPages: nat, k: nat)
    requires maxPages >= 1 && maxDepth >= 1 && k < |LinksOf(fetch, start)| && LinksOf(fetch, start)[k] != start
    requires Others(LinksOf(fetch, start), start, k) < maxPages - 1
    ensures LinksOf(fetch, start)[k] in FirstLinks(fetch, start, maxDepth, maxPages)
  {
    var links := LinksOf(fetch, start);
    OthersIs(links, start, k);
    UnvisitedPrefix(links, {start}, k + 1);
    assert links[..k + 1][..k] == links[..k];
    var all, part := Unvisited(links, {start}), Unvisited(links[..k + 1], {start});
    var n := |part| - 1;
    assert part == Unvisited(links[..k], {start}) + [links[k]];
    assert all[n] == links[k];
    assert Take(all, maxPages - 1)[n] == all[n];
  }

  function Depth(maxDepth: int): nat {
    if maxDepth <= 0 then 0 else maxDepth
  }

  lemma ReachableIsWithin(fetch: Fetch, start: string, maxDepth: int, p: string)
    ensures p in Reachable(fetch, start, Depth(maxDepth)) <==> Within(fetch, start, maxDepth, p)
  {
    ReachableIff(fetch, start, Depth(maxDepth), p);
    if Within(fetch, start, maxDepth, p) {
      var d: nat :| (d == 0 || d <= maxDepth) && p in At(fetch, start, d);
      assert d <= Depth(maxDepth);
    }
    if InFirst(fetch, start, Depth(maxDepth), p) {
      var d: nat :| d <= Depth(maxDepth) && p in At(fetch, start, d);
      assert d == 0 || d <= maxDepth;
    }
  }

  lemma CountIs(pages: seq<string>, reach: set<string>, maxPages: nat, dropped: bool)
    requires NoDup(pages) && (forall p :: p in pages ==> p in reach) && |pages| <= maxPages
    requires if dropped then |pages| == maxPages else forall p :: p in reach ==> p in pages
    ensures |pages| == if maxPages <= |reach| then maxPages else |reach|
  {
    NoDupCount(pages);
    SubsetSize(Elements(pages), reach);
    if !dropped {
      assert Elements(pages) == reach;
    }
  }

  lemma PagesCount(fetch: Fetch, start: string, maxDepth: int, maxPages: nat, dist: map<string, nat>, pages: seq<string>, dropped: bool)
    requires Running(fetch, start, maxDepth, maxPages, dist, [], pages, dropped)
    requires Tidy(fetch, start, maxDepth) && (dropped ==> |pages| == maxPages)
    ensures FullCount(fetch, start, maxDepth, maxPages, pages)
  {
    var reach := Reachable(fetch, start, Depth(maxDepth));
    forall p ensures p in reach <==> Within(fetch, start, maxDepth, p) {
      ReachableIsWithin(fetch, start, maxDepth, p);
    }
    PagesSound(fetch, start, maxDepth, dist, pages);
    if !dropped {
      PagesComplete(fetch, start, maxDepth, dist, [], pages);
    }
    CountIs(pages, reach, maxPages, dropped);
  }

  /** Fetches the path just taken from the queue and queues its links. */
  method Expand(fetch: Fetch, maxDepth: int, maxPages: nat, visited: set<string>, item: QueueItem, rest: seq<QueueItem>,
                ghost pages: seq<string>, count: nat, ghost dist: map<string, nat>)
    returns (queue: seq<QueueItem>, found: bool, ghost more: seq<QueueItem>, ghost lost: bool)
    requires |rest| + 1 + count <= maxPages && count == |pages| && visited == dist.Keys + {item.path}
    ensures queue == rest + more && (found <==> fetch(item.path).Some?) && (!found ==> !lost)
    ensures Expanded(fetch, maxDepth, dist, [item] + rest, more, lost)
    ensures MoreOf(fetch, maxDepth, maxPages, dist, [item] + rest, pages, more)
    ensures |queue| + count + One(found) <= maxPages && (lost ==> |queue| + count + 1 == maxPages)
    ensures !found ==> |queue| == |rest|
  {
    queue, more, lost := rest, [], false;
    var page := fetch(item.path);
    found := page.Some?;
    if found && item.depth < maxDepth {
      queue, more, lost := Enqueue(page.value, item.depth, visited, queue, count + 1, maxPages);
      EnqueuedFacts(page.value, item.depth, visited, rest, more, maxPages - |rest| - count - 1, lost);
    }
    assert ([item] + rest)[1..] == rest;
  }

  function One(b: bool): nat {
    if b then 1 else 0
  }

  ghost predicate Round(fetch: Fetch, start: string, maxDepth: int, maxPages: nat, dist: map<string, nat>,
                        queue: seq<QueueItem>, pages: seq<string>, dropped: bool, queued: set<string>) {
    && maxPages >= 1 && Running(fetch, start, maxDepth, maxPages, dist, queue, pages, dropped)
    && Steady(fetch, start, maxDepth, maxPages, dist, queue, pages, dropped, queued)
  }

  lemma RoundStart(fetch: Fetch, start: string, maxDepth: int, maxPages: nat)
    requires maxPages >= 1
    ensures Round(fetch, start, maxDepth, maxPages, map[], [QueueItem(start, 0)], [], false, {start})
  {
    RunningStart(fetch, start, maxDepth, maxPages);
    SteadyStart(fetch, start, maxDepth, maxPages);
  }

  lemma RoundSkip(fetch: Fetch, start: string, maxDepth: int, maxPages: nat, dist: map<string, nat>, item: QueueItem,
                  rest: seq<QueueItem>, pages: seq<string>, dropped: bool, queued: set<string>)
    requires Round(fetch, start, maxDepth, maxPages, dist, [item] + rest, pages, dropped, queued) && item.path in dist
    ensures Round(fetch, start, maxDepth, maxPages, dist, rest, pages, dropped, queued)
  {
    var queue := [item] + rest;
    assert queue[1..] == rest;
    RunningSkip(fetch, start, maxDepth, maxPages, dist, queue, pages, dropped);
    SteadySkip(fetch, start, maxDepth, maxPages, dist, queue, pages, dropped, queued);
  }

  lemma RoundVisit(fetch: Fetch, start: string, maxDepth: int, maxPages: nat, dist: map<string, nat>, item: QueueItem,
                   rest: seq<QueueItem>, pages: seq<string>, dropped: bool, more: seq<QueueItem>, lost: bool, queued: set<string>)
    requires Round(fetch, start, maxDepth, maxPages, dist, [item] + rest, pages, dropped, queued) && item.path !in dist
    requires Expanded(fetch, maxDepth, dist, [item] + rest, more, lost) && (fetch(item.path).None? ==> !lost)
    requires MoreOf(fetch, maxDepth, maxPages, dist, [item] + rest, pages, more)
    requires |rest + more| + |pages| + One(fetch(item.path).Some?) <= maxPages
    requires lost ==> |rest + more| + |pages| + 1 == maxPages
    ensures Round(fetch, start, maxDepth, maxPages, dist[item.path := item.depth], rest + more,
                  if fetch(item.path).Some? then pages + [item.path] else pages, dropped || lost,
                  queued + Elements(Paths(more)))
  {
    var queue := [item] + rest;
    assert queue[1..] == rest && queue[0] == item;
    RunningVisit(fetch, start, maxDepth, maxPages, dist, queue, pages, dropped, more, lost);
    SteadyVisit(fetch, start, maxDepth, maxPages, dist, queue, pages, dropped, more, lost, queued);
  }

  /** One round: the head of the queue is skipped if it was visited, or else fetched and expanded. */
  method Turn(fetch: Fetch, ghost start: string, maxDepth: int, maxPages: nat, visited: set<string>, item: QueueItem,
              rest: seq<QueueItem>, pages: seq<string>, ghost dist: map<string, nat>, ghost dropped: bool, ghost queued: set<string>)
    returns (queue: seq<QueueItem>, pages': seq<string>, visited': set<string>,
             ghost dist': map<string, nat>, ghost dropped': bool, ghost queued': set<string>)
    requires visited == dist.Keys && |pages| < maxPages
    requires Round(fetch, start, maxDepth, maxPages, dist, [item] + rest, pages, dropped, queued)
    ensures Round(fetch, start, maxDepth, maxPages, dist', queue, pages', dropped', queued')
    ensures visited' == dist'.Keys && (|pages'| > |pages| || (|pages'| == |pages| && |queue| == |rest|))
  {
    if item.path in visited {
      RoundSkip(fetch, start, maxDepth, maxPages, dist, item, rest, pages, dropped, queued);
      return rest, pages, visited, dist, dropped, queued;
    }
    var found;
    ghost var more, lost;
    queue, found, more, lost := Expand(fetch, maxDepth, maxPages, visited + {item.path}, item, rest, pages, |pages|, dist);
    RoundVisit(fetch, start, maxDepth, maxPages, dist, item, rest, pages, dropped, more, lost, queued);
    dist', dropped', queued' := dist[item.path := item.depth], dropped || lost, queued + Elements(Paths(more));
    visited' := visited + {item.path};
    pages' := if found then pages + [item.path] else pages;
  }

  /** What a crawl that was not cancelled has done when it ends. */
  ghost predicate Finished(fetch: Fetch, start: string, maxDepth: int, maxPages: nat, pages: seq<string>, dropped: bool,
                           queued: set<string>)
  {
    && start in queued && (forall p :: p in pages <==> p in queued && fetch(p).Some?)
    && FirstLinksDone(fetch, start, maxDepth, maxPages, pages)
    && (Tidy(fetch, start, maxDepth) ==> FullCount(fetch, start, maxDepth, maxPages, pages))
    && (!dropped ==> forall p :: p in pages <==> fetch(p).Some? && Within(fetch, start, maxDepth, p))
  }

  /** What holds of the pages at any time. */
  ghost predicate Sound(fetch: Fetch, start: string, maxDepth: int, maxPages: nat, pages: seq<string>, dropped: bool) {
    && NoDup(pages) && (forall p :: p in pages ==> fetch(p).Some? && Within(fetch, start, maxDepth, p))
    && (!dropped ==> ShortestFirst(fetch, start, pages))
    && (dropped ==> 1 + TotalLinks(fetch, pages) > maxPages)
  }

  lemma RoundSound(fetch: Fetch, start: string, maxDepth: int, maxPages: nat, dist: map<string, nat>,
                   queue: seq<QueueItem>, pages: seq<string>, dropped: bool, queued: set<string>)
    requires Round(fetch, start, maxDepth, maxPages, dist, queue, pages, dropped, queued)
    ensures Sound(fetch, start, maxDepth, maxPages, pages, dropped)
  {
    PagesSound(fetch, start, maxDepth, dist, pages);
    if !dropped {
      PagesShortest(fetch, start, dist, pages);
    }
  }

  lemma RoundFinished(fetch: Fetch, start: string, maxDepth: int, maxPages: nat, dist: map<string, nat>,
                      pages: seq<string>, dropped: bool, queued: set<string>)
    requires Round(fetch, start, maxDepth, maxPages, dist, [], pages, dropped, queued)
    ensures Finished(fetch, start, maxDepth, maxPages, pages, dropped, queued)
  {
    AllDone(fetch, start, maxDepth, maxPages, dist, pages, dropped, queued);
    if !dropped {
      PagesSound(fetch, start, maxDepth, dist, pages);
      PagesComplete(fetch, start, maxDepth, dist, [], pages);
    }
  }

  /** Crawl from start. cancelled(k) says whether the context is done when the loop tests it the k-th time.
      dropped records whether the page cap ever kept an unvisited link out, queued what ever was in the queue. */
  method Crawl(fetch: Fetch, start: string, maxDepth: int, maxPagesOption: int, cancelled: nat -> bool)
    returns (pages: seq<string>, stopped: bool, ghost dropped: bool, ghost queued: set<string>)
    ensures |pages| <= if maxPagesOption <= 0 then 1 else maxPagesOption
    ensures Sound(fetch, start, maxDepth, if maxPagesOption <= 0 then 1 else maxPagesOption, pages, dropped)
    ensures !stopped ==>
              Finished(fetch, start, maxDepth, if maxPagesOption <= 0 then 1 else maxPagesOption, pages, dropped, queued)
    ensures (forall k :: !cancelled(k)) ==> !stopped
  {
    var maxPages: nat := if maxPagesOption <= 0 then 1 else maxPagesOption;
    var visited: set<string> := {};
    ghost var dist: map<string, nat> := map[];
    var queue := [QueueItem(start, 0)];
    pages, stopped, dropped, queued := [], false, false, {start};
    var k := 0;
    RoundStart(fetch, start, maxDepth, maxPages);
    while queue != [] && |pages| < maxPages
      invariant visited == dist.Keys && !stopped
      invariant Round(fetch, start, maxDepth, maxPages, dist, queue, pages, dropped, queued)
      decreases maxPages - |pages|, |queue|
    {
      if cancelled(k) {
        stopped := true;
        break;
      }
      k := k + 1;
      var item, rest := queue[0], queue[1..];
      assert queue == [item] + rest;
      queue, pages, visited, dist, dropped, queued :=
        Turn(fetch, start, maxDepth, maxPages, visited, item, rest, pages, dist, dropped, queued);
    }
    RoundSound(fetch, start, maxDepth, maxPages, dist, queue, pages, dropped, queued);
    if !stopped {
      assert queue == [];
      RoundFinished(fetch, start, maxDepth, maxPages, dist, pages, dropped, queued);
    }
  }

  /** The shortest distances of the pages never decrease along the list. */
  ghost predicate ShortestFirst(fetch: Fetch, start: string, pages: seq<string>) {
    forall i, j, d: nat, e: nat ::
      (0 <= i < j < |pages| && Shortest(fetch, start, pages[i], d) && Shortest(fetch, start, pages[j], e)) ==> d <= e
  }

  lemma ShortestUnique(fetch: Fetch, start: string, path: string, d: nat, e: nat)
    requires Shortest(fetch, start, path, d) && Shortest(fetch, start, path, e)
    ensures d == e
  {
  }

  lemma PagesShortest(fetch: Fetch, start: string, dist: map<string, nat>, pages: seq<string>)
    requires Collected(fetch, dist, pages) && AllShortest(fetch, start, dist)
    ensures ShortestFirst(fetch, start, pages)
  {
    forall i, j, d: nat, e: nat | 0 <= i < j < |pages| && Shortest(fetch, start, pages[i], d)
                                  && Shortest(fetch, start, pages[j], e)
      ensures d <= e
    {
      assert pages[i] in pages && pages[j] in pages;
      ShortestUnique(fetch, start, pages[i], d, dist[pages[i]]);
      ShortestUnique(fetch, start, pages[j], e, dist[pages[j]]);
    }
  }

  lemma PagesSound(fetch: Fetch, start: string, maxDepth: int, dist: map<string, nat>, pages: seq<string>)
    requires Collected(fetch, dist, pages)
    requires forall p :: p in dist ==> GoodDepth(fetch, start, maxDepth, p, dist[p])
    ensures forall p :: p in pages ==> fetch(p).Some? && Within(fetch, start, maxDepth, p)
  {
  }

  /** With the queue empty and nothing lost, every fetchable path within bounds is a page. */
  lemma PagesComplete(fetch: Fetch, start: string, maxDepth: int, dist: map<string, nat>, queue: seq<QueueItem>, pages: seq<string>)
    requires Collected(fetch, dist, pages) && Closed(fetch, start, maxDepth, dist, queue) && queue == []
    ensures forall p :: fetch(p).Some? && Within(fetch, start, maxDepth, p) ==> p in pages
  {
    forall p | fetch(p).Some? && Within(fetch, start, maxDepth, p) ensures p in pages {
      var d: nat :| (d == 0 || d <= maxDepth) && p in At(fetch, start, d);
      Covered(fetch, start, maxDepth, dist, queue, p, d);
      assert !Pending(queue, d);
    }
  }
}
