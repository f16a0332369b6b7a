/** The detection engine's run: goroutines for all eligible detector and target pairs, their results gathered
    in whatever order they finish, then deduplicated and persisted. */
module DetectionRun {
  import opened Counting
  import opened DetectionFindings
  import opened FirstBy
  import opened Ordering

  // ----- which pairs are scheduled -----

  method Listed(items: seq<string>, wanted: string) returns (found: bool)
    ensures found == (wanted in items)
  {
    for i := 0 to |items|
      invariant wanted !in items[..i]
    {
      assert items[..i + 1] == items[..i] + [items[i]];
      if items[i] == wanted {
        return true;
      }
    }
    assert items[..|items|] == items;
    return false;
  }

  predicate Supports(meta: Metadata, t: Target) {
    t.kind in meta.targetTypes && (meta.methods == [] || t.kind != ENDPOINT_KIND || t.httpMethod in meta.methods)
  }

  method SupportsTarget(meta: Metadata, t: Target) returns (ok: bool)
    ensures ok == Supports(meta, t)
  {
    ok := Listed(meta.targetTypes, t.kind);
    if !ok {
      return;
    }
    if |meta.methods| == 0 || t.kind != ENDPOINT_KIND {
      return true;
    }
    ok := Listed(meta.methods, t.httpMethod);
  }

  datatype Pair = Pair(meta: Metadata, target: Target)

  /** The detector's own Eligible. */
  type Eligible = (Metadata, Target) -> bool

  /** Every supported and eligible pair once for each place it has in the two lists, detector by detector. */
  method EligiblePairs(detectors: seq<Metadata>, targets: seq<Target>, eligible: Eligible) returns (pairs: seq<Pair>)
    ensures pairs == PairsUpTo(detectors, targets, eligible, |detectors|)
  {
    pairs := [];
    for i := 0 to |detectors|
      invariant pairs == PairsUpTo(detectors, targets, eligible, i)
    {
      ghost var before := pairs;
      for j := 0 to |targets|
        invariant pairs == before + PairsOf(detectors[i], targets, eligible, j)
      {
        var ok := SupportsTarget(detectors[i], targets[j]);
        if !ok || !eligible(detectors[i], targets[j]) {
          continue;
        }
        pairs := pairs + [Pair(detectors[i], targets[j])];
      }
    }
  }

  function PairsOf(meta: Metadata, targets: seq<Target>, eligible: Eligible, j: nat): seq<Pair>
    requires j <= |targets|
  {
    if j == 0 then []
    else
      var rest := PairsOf(meta, targets, eligible, j - 1);
      if Supports(meta, targets[j - 1]) && eligible(meta, targets[j - 1]) then rest + [Pair(meta, targets[j - 1])] else rest
  }

  function PairsUpTo(detectors: seq<Metadata>, targets: seq<Target>, eligible: Eligible, i: nat): seq<Pair>
    requires i <= |detectors|
  {
    if i == 0 then []
    else PairsUpTo(detectors, targets, eligible, i - 1) + PairsOf(detectors[i - 1], targets, eligible, |targets|)
  }

  lemma {:induction false} PairsOfMembers(meta: Metadata, targets: seq<Target>, eligible: Eligible, j: nat, p: Pair)
    requires j <= |targets|
    ensures p in PairsOf(meta, targets, eligible, j) <==>
            p.meta == meta && p.target in targets[..j] && Supports(meta, p.target) && eligible(meta, p.target)
  {
    if j > 0 {
      PairsOfMembers(meta, targets, eligible, j - 1, p);
      assert targets[..j] == targets[..j - 1] + [targets[j - 1]];
    }
  }

  /** No detector is run against anything it does not support, and no supported pair is missed. */
  lemma {:induction false} PairsMembers(detectors: seq<Metadata>, targets: seq<Target>, eligible: Eligible, i: nat, p: Pair)
    requires i <= |detectors|
    ensures p in PairsUpTo(detectors, targets, eligible, i) <==>
            && p.meta in detectors[..i] && p.target in targets && eligible(p.meta, p.target)
            && p.target.kind in p.meta.targetTypes
            && (p.target.kind == "endpoint" ==> p.meta.methods == [] || p.target.httpMethod in p.meta.methods)
  {
    if i > 0 {
      PairsMembers(detectors, targets, eligible, i - 1, p);
      PairsOfMembers(detectors[i - 1], targets, eligible, |targets|, p);
      assert targets[..|targets|] == targets;
      assert detectors[..i] == detectors[..i - 1] + [detectors[i - 1]];
    }
  }

  // ----- the goroutines -----

  /** What Detect does for a pair: fail, panic, or report normalised findings (possibly none). */
  datatype Outcome = Fails | Panics | Reports(findings: seq<Finding>)

  datatype How = Skipped | Completed | Panicked

  datatype Task = Unlaunched | Launched | Recovering | Returned | Over(how: How)

  datatype State = State(
    launched: nat, cancelled: bool, tasks: seq<Task>, runCount: nat, errors: seq<nat>, found: seq<Finding>)

  const IsActive := (t: Task) => t.Launched? || t.Recovering? || t.Returned?
  const HasRun := (t: Task) => t.Returned? || t == Over(Completed)
  const HasPanicked := (t: Task) => t == Over(Panicked)
  const WasSkipped := (t: Task) => t == Over(Skipped)

  ghost predicate Init(n: nat, s: State) {
    s == State(0, s.cancelled, seq(n, _ => Unlaunched), 0, [], [])
  }

  /** One step of goroutine p, or of the loop launching it; each update of shared results is one critical section. */
  ghost predicate TaskStep(limit: nat, outcomes: seq<Outcome>, s: State, s': State, p: nat)
    requires |outcomes| == |s.tasks| && p < |s.tasks|
  {
    match s.tasks[p]
    case Unlaunched =>
      && p == s.launched && Count(s.tasks, IsActive) < limit
      && s' == s.(launched := p + 1, tasks := s.tasks[p := Launched])
    case Launched =>
      if s.cancelled then s' == s.(tasks := s.tasks[p := Over(Skipped)])
      else if outcomes[p].Panics? then s' == s.(tasks := s.tasks[p := Recovering])
      else s' == s.(runCount := s.runCount + 1, tasks := s.tasks[p := Returned])
    case Recovering => s' == s.(errors := s.errors + [p], tasks := s.tasks[p := Over(Panicked)])
    case Returned =>
      if outcomes[p].Fails? then s' == s.(errors := s.errors + [p], tasks := s.tasks[p := Over(Completed)])
      else outcomes[p].Reports? && s' == s.(found := s.found + outcomes[p].findings, tasks := s.tasks[p := Over(Completed)])
    case Over(_) => false
  }

  /** The context may be cancelled at any time; otherwise some goroutine moves. */
  ghost predicate Step(limit: nat, outcomes: seq<Outcome>, s: State, s': State) {
    && |outcomes| == |s.tasks|
    && (s' == s.(cancelled := true) || exists p: nat :: p < |s.tasks| && TaskStep(limit, outcomes, s, s', p))
  }

  ghost predicate Run(limit: nat, outcomes: seq<Outcome>, trace: seq<State>) {
    && trace != [] && Init(|outcomes|, trace[0])
    && forall i :: 0 <= i < |trace| - 1 ==> Step(limit, outcomes, trace[i], trace[i + 1])
  }

  ghost predicate Waited(s: State) {
    forall i :: 0 <= i < |s.tasks| ==> s.tasks[i].Over?
  }

  // ----- what every interleaving keeps -----

  /** The findings of all completed pairs, whatever their order of completion. */
  ghost function Gathered(tasks: seq<Task>, outcomes: seq<Outcome>): multiset<Finding>
    requires |tasks| == |outcomes|
    decreases |tasks|
  {
    if tasks == [] then multiset{}
    else
      var n := |tasks| - 1;
      Gathered(tasks[..n], outcomes[..n]) + Contribution(tasks[n], outcomes[n])
  }

  ghost function Contribution(t: Task, o: Outcome): multiset<Finding> {
    if t == Over(Completed) && o.Reports? then multiset(o.findings) else multiset{}
  }

  lemma Exchange(a: multiset<Finding>, b: multiset<Finding>, c: multiset<Finding>)
    ensures (a + c) + b == (a + b) + c
  {
  }

  lemma {:induction false} GatheredUpdate(tasks: seq<Task>, outcomes: seq<Outcome>, p: nat, t: Task)
    requires |tasks| == |outcomes| && p < |tasks| && tasks[p] != Over(Completed)
    ensures Gathered(tasks[p := t], outcomes) == Gathered(tasks, outcomes) + Contribution(t, outcomes[p])
    decreases |tasks|
  {
    var n := |tasks| - 1;
    var updated := tasks[p := t];
    if p < n {
      GatheredUpdate(tasks[..n], outcomes[..n], p, t);
      assert updated[..n] == tasks[..n][p := t];
      Exchange(Gathered(tasks[..n], outcomes[..n]), Contribution(tasks[n], outcomes[n]), Contribution(t, outcomes[p]));
    } else {
      assert updated[..n] == tasks[..n];
      assert Contribution(tasks[n], outcomes[n]) == multiset{};
    }
  }

  ghost predicate Erred(t: Task, o: Outcome) {
    t == Over(Panicked) || (t == Over(Completed) && o.Fails?)
  }

  ghost predicate Counters(limit: nat, s: State) {
    && s.runCount == Count(s.tasks, HasRun)
    && Count(s.tasks, IsActive) <= limit
    && (!s.cancelled ==> Count(s.tasks, WasSkipped) == 0)
  }

  ghost predicate Errors(outcomes: seq<Outcome>, s: State)
    requires |s.tasks| == |outcomes|
  {
    NoDup(s.errors) && forall i: nat :: i in s.errors <==> i < |s.tasks| && Erred(s.tasks[i], outcomes[i])
  }

  /** Panicking pairs go through recovery and only they do; goroutines are launched in order. */
  ghost predicate Fits(outcomes: seq<Outcome>, s: State)
    requires |s.tasks| == |outcomes|
  {
    && (forall i :: 0 <= i < |s.tasks| ==> FitsOutcome(s.tasks[i], outcomes[i]))
    && s.launched <= |s.tasks| && (forall i :: 0 <= i < |s.tasks| ==> (s.tasks[i].Unlaunched? <==> i >= s.launched))
  }

  ghost predicate FitsOutcome(t: Task, o: Outcome) {
    && (t.Recovering? || t == Over(Panicked) ==> o.Panics?)
    && (t.Returned? || t == Over(Completed) ==> !o.Panics?)
  }

  ghost predicate Inv(limit: nat, outcomes: seq<Outcome>, s: State) {
    && |s.tasks| == |outcomes| && Counters(limit, s) && Errors(outcomes, s) && Fits(outcomes, s)
    && multiset(s.found) == Gathered(s.tasks, outcomes)
  }

  lemma {:induction false} GatheredNone(tasks: seq<Task>, outcomes: seq<Outcome>)
    requires |tasks| == |outcomes| && forall t :: t in tasks ==> t.Unlaunched?
    ensures Gathered(tasks, outcomes) == multiset{}
    decreases |tasks|
  {
    if tasks != [] {
      assert tasks[|tasks| - 1] in tasks;
      GatheredNone(tasks[..|tasks| - 1], outcomes[..|tasks| - 1]);
    }
  }

  lemma InitInv(limit: nat, outcomes: seq<Outcome>, s: State)
    requires Init(|outcomes|, s)
    ensures Inv(limit, outcomes, s)
  {
    CountNone(s.tasks, HasRun);
    CountNone(s.tasks, IsActive);
    CountNone(s.tasks, WasSkipped);
    GatheredNone(s.tasks, outcomes);
  }

  lemma StepCounters(limit: nat, outcomes: seq<Outcome>, s: State, s': State, p: nat)
    requires Inv(limit, outcomes, s) && p < |s.tasks| && TaskStep(limit, outcomes, s, s', p)
    ensures Counters(limit, s')
  {
    var t := s'.tasks[p];
    assert s'.tasks == s.tasks[p := t];
    CountUpdate(s.tasks, p, t, HasRun);
    CountUpdate(s.tasks, p, t, IsActive);
    CountUpdate(s.tasks, p, t, WasSkipped);
  }

  lemma StepFound(limit: nat, outcomes: seq<Outcome>, s: State, s': State, p: nat)
    requires Inv(limit, outcomes, s) && p < |s.tasks| && TaskStep(limit, outcomes, s, s', p)
    ensures |s'.tasks| == |outcomes| && multiset(s'.found) == Gathered(s'.tasks, outcomes)
  {
    assert s'.tasks == s.tasks[p := s'.tasks[p]];
    GatheredUpdate(s.tasks, outcomes, p, s'.tasks[p]);
  }

  lemma StepErrors(limit: nat, outcomes: seq<Outcome>, s: State, s': State, p: nat)
    requires Inv(limit, outcomes, s) && p < |s.tasks| && TaskStep(limit, outcomes, s, s', p)
    ensures Errors(outcomes, s')
  {
    assert p !in s.errors;
    assert s'.tasks == s.tasks[p := s'.tasks[p]];
    assert s'.errors == if Erred(s'.tasks[p], outcomes[p]) then s.errors + [p] else s.errors;
    forall i: nat ensures i in s'.errors <==> i < |s'.tasks| && Erred(s'.tasks[i], outcomes[i]) {
      assert i != p && i < |s.tasks| ==> s'.tasks[i] == s.tasks[i];
    }
  }

  lemma StepFits(limit: nat, outcomes: seq<Outcome>, s: State, s': State, p: nat)
    requires Inv(limit, outcomes, s) && p < |s.tasks| && TaskStep(limit, outcomes, s, s', p)
    ensures Fits(outcomes, s')
  {
    assert FitsOutcome(s.tasks[p], outcomes[p]);
    assert s'.tasks == s.tasks[p := s'.tasks[p]];
    assert FitsOutcome(s'.tasks[p], outcomes[p]);
  }

  lemma StepInv(limit: nat, outcomes: seq<Outcome>, s: State, s': State)
    requires Inv(limit, outcomes, s) && Step(limit, outcomes, s, s')
    ensures Inv(limit, outcomes, s')
  {
    if s' == s.(cancelled := true) {
      assert s'.tasks == s.tasks && s'.errors == s.errors;
    } else {
      var p: nat :| p < |s.tasks| && TaskStep(limit, outcomes, s, s', p);
      TaskStepInv(limit, outcomes, s, s', p);
    }
  }

  lemma TaskStepInv(limit: nat, outcomes: seq<Outcome>, s: State, s': State, p: nat)
    requires Inv(limit, outcomes, s) && p < |s.tasks| && TaskStep(limit, outcomes, s, s', p)
    ensures Inv(limit, outcomes, s')
  {
    StepFound(limit, outcomes, s, s', p);
    StepCounters(limit, outcomes, s, s', p);
    StepErrors(limit, outcomes, s, s', p);
    StepFits(limit, outcomes, s, s', p);
  }

  lemma {:induction false} RunInv(limit: nat, outcomes: seq<Outcome>, trace: seq<State>, i: nat)
    requires Run(limit, outcomes, trace) && i < |trace|
    ensures Inv(limit, outcomes, trace[i])
  {
    if i == 0 {
      InitInv(limit, outcomes, trace[0]);
    } else {
      RunInv(limit, outcomes, trace, i - 1);
      assert Step(limit, outcomes, trace[i - 1], trace[i - 1 + 1]);
      StepInv(limit, outcomes, trace[i - 1], trace[i]);
    }
  }

  lemma {:induction false} OverKinds(tasks: seq<Task>)
    requires forall t :: t in tasks ==> t.Over?
    ensures |tasks| == Count(tasks, HasRun) + Count(tasks, HasPanicked) + Count(tasks, WasSkipped)
    decreases |tasks|
  {
    if tasks != [] {
      var t := tasks[|tasks| - 1];
      assert t in tasks;
      OverKinds(tasks[..|tasks| - 1]);
      match t.how
      case Skipped => assert WasSkipped(t) && !HasRun(t) && !HasPanicked(t);
      case Completed => assert HasRun(t) && !WasSkipped(t) && !HasPanicked(t);
      case Panicked => assert HasPanicked(t) && !HasRun(t) && !WasSkipped(t);
    }
  }

  /** When the engine has waited for its goroutines, every eligible pair ran, panicked or was skipped by
      cancellation; each failed or panicked pair left exactly one error; and the findings are exactly those
      of the completed pairs. */
  lemma EveryPairAccountedFor(limit: nat, outcomes: seq<Outcome>, trace: seq<State>)
    requires Run(limit, outcomes, trace) && Waited(trace[|trace| - 1])
    ensures var s := trace[|trace| - 1];
            && |s.tasks| == |outcomes| == s.runCount + Count(s.tasks, HasPanicked) + Count(s.tasks, WasSkipped)
            && multiset(s.found) == Gathered(s.tasks, outcomes)
            && Errors(outcomes, s)
            && (!s.cancelled ==> Count(s.tasks, WasSkipped) == 0)
  {
    RunInv(limit, outcomes, trace, |trace| - 1);
    var s := trace[|trace| - 1];
    forall t | t in s.tasks ensures t.Over? {
    }
    OverKinds(s.tasks);
  }

  /** Never are more goroutines active than the limit. */
  lemma LimitHolds(limit: nat, outcomes: seq<Outcome>, trace: seq<State>, i: nat)
    requires Run(limit, outcomes, trace) && i < |trace|
    ensures Count(trace[i].tasks, IsActive) <= limit
  {
    RunInv(limit, outcomes, trace, i);
  }

  function Ending(o: Outcome): Task {
    Over(if o.Panics? then Panicked else Completed)
  }

  lemma NotSkipped(limit: nat, outcomes: seq<Outcome>, s: State, i: nat)
    requires Inv(limit, outcomes, s) && Waited(s) && !s.cancelled && i < |outcomes|
    ensures s.tasks[i] == Ending(outcomes[i])
  {
    var t := s.tasks[i];
    assert FitsOutcome(t, outcomes[i]);
    match t.how
    case Skipped =>
      assert WasSkipped(t);
      CountMember(s.tasks, i, WasSkipped);
    case Completed =>
    case Panicked =>
  }

  lemma SameKeys(fs: seq<Finding>, gs: seq<Finding>)
    requires multiset(fs) == multiset(gs)
    ensures Keys(fs) == Keys(gs)
  {
    SameMultisetSameElements(fs, gs);
    FirstBy.SameKeys(fs, gs, KeyOf);
  }

  lemma SameTasks(limit: nat, limit': nat, outcomes: seq<Outcome>, s: State, s': State)
    requires Inv(limit, outcomes, s) && Waited(s) && !s.cancelled
    requires Inv(limit', outcomes, s') && Waited(s') && !s'.cancelled
    ensures s.tasks == s'.tasks
  {
    forall i | 0 <= i < |outcomes| ensures s.tasks[i] == s'.tasks[i] {
      NotSkipped(limit, outcomes, s, i);
      NotSkipped(limit', outcomes, s', i);
    }
  }

  lemma SamePersisted(fs: seq<Finding>, gs: seq<Finding>, existing: seq<Finding>)
    requires multiset(fs) == multiset(gs)
    ensures var kept, kept' := Firsts(fs, KeyOf, Keys(existing)), Firsts(gs, KeyOf, Keys(existing));
            Keys(kept) == Keys(kept') && |kept| == |kept'| && |fs| == |gs|
  {
    SameKeys(fs, gs);
    SameMultisetSameElements(fs, gs);
    KeptKeys(existing, fs);
    KeptKeys(existing, gs);
  }

  /** Two interleavings of the same detectors, errors and panics included, that are not cancelled: they run
      the same number of pairs, find the same findings, fail on the same pairs, and after deduplication
      persist the same keys and count the same duplicates. */
  lemma ResultsAreScheduleIndependent(limit: nat, limit': nat, outcomes: seq<Outcome>, trace: seq<State>, trace': seq<State>,
                                      existing: seq<Finding>)
    requires Run(limit, outcomes, trace) && Waited(trace[|trace| - 1]) && !trace[|trace| - 1].cancelled
    requires Run(limit', outcomes, trace') && Waited(trace'[|trace'| - 1]) && !trace'[|trace'| - 1].cancelled
    ensures var s, s' := trace[|trace| - 1], trace'[|trace'| - 1];
            var kept, kept' := Firsts(s.found, KeyOf, Keys(existing)), Firsts(s'.found, KeyOf, Keys(existing));
            && s.runCount == s'.runCount && multiset(s.found) == multiset(s'.found)
            && Keys(kept) == Keys(kept') && |kept| == |kept'| && |s.found| == |s'.found|
            && (forall i: nat :: i in s.errors <==> i in s'.errors)
  {
    var s, s' := trace[|trace| - 1], trace'[|trace'| - 1];
    RunInv(limit, outcomes, trace, |trace| - 1);
    RunInv(limit', outcomes, trace', |trace'| - 1);
    SameTasks(limit, limit', outcomes, s, s');
    SamePersisted(s.found, s'.found, existing);
  }

  // ----- persistence -----

  /** The store fails or accepts the n-th creation; the run stops at the first failure. */
  method Persist(kept: seq<Finding>, accepts: nat -> bool, store: seq<Finding>)
    returns (store': seq<Finding>, created: nat, failed: bool)
    ensures created <= |kept| && store' == store + kept[..created]
    ensures (forall i :: 0 <= i < created ==> accepts(i)) && (failed <==> created < |kept|)
    ensures failed ==> !accepts(created)
  {
    store', created := store, 0;
    while created < |kept|
      invariant created <= |kept| && store' == store + kept[..created]
      invariant forall i :: 0 <= i < created ==> accepts(i)
    {
      if !accepts(created) {
        return store', created, true;
      }
      store' := store' + [kept[created]];
      created := created + 1;
    }
    failed := false;
  }

  /** The tail of Run: deduplicate what the goroutines found against the store, and persist. */
  method Finish(store: seq<Finding>, found: seq<Finding>, accepts: nat -> bool)
    returns (store': seq<Finding>, created: nat, duplicates: nat, failed: bool)
    ensures !failed ==> created + duplicates == |found| && Keys(store') == Keys(store) + Keys(found)
    ensures created + duplicates <= |found| && Keys(store') <= Keys(store) + Keys(found)
    ensures |store'| == |store| + created && store <= store'
    ensures DistinctKeys(store, KeyOf) ==> DistinctKeys(store', KeyOf)
    ensures Keys(found) <= Keys(store) ==> store' == store && created == 0
  {
    var kept;
    kept, duplicates := Deduplicate(store, found);
    store', created, failed := Persist(kept, accepts, store);
    Persisted(store, found, kept, created);
    KeptKeys(store, found);
    if DistinctKeys(store, KeyOf) {
      StaysDistinct(store, kept, created);
    }
  }

  lemma Persisted(store: seq<Finding>, found: seq<Finding>, kept: seq<Finding>, n: nat)
    requires kept == Firsts(found, KeyOf, Keys(store)) && n <= |kept|
    ensures n == |kept| ==> Keys(store + kept[..n]) == Keys(store) + Keys(found)
    ensures Keys(store + kept[..n]) <= Keys(store) + Keys(found)
    ensures Keys(found) <= Keys(store) ==> kept == []
  {
    KeptKeys(store, found);
    PersistedKeys(store, kept, n);
    Minus(Keys(found), Keys(store), Keys(kept));
  }

  lemma Minus(f: set<string>, s: set<string>, k: set<string>)
    requires k == f - s
    ensures s + k == s + f && (f <= s ==> |k| == 0)
  {
    assert f <= s ==> k == {};
  }

  lemma PersistedKeys(store: seq<Finding>, kept: seq<Finding>, n: nat)
    requires n <= |kept|
    ensures Keys(store + kept[..n]) <= Keys(store) + Keys(kept)
    ensures n == |kept| ==> Keys(store + kept[..n]) == Keys(store) + Keys(kept)
  {
    KeysJoin(store, kept[..n]);
    KeysPrefix(kept, n);
    if n == |kept| {
      assert kept[..n] == kept;
    }
  }

  lemma KeysPrefix(fs: seq<Finding>, n: nat)
    requires n <= |fs|
    ensures Keys(fs[..n]) <= Keys(fs)
  {
    assert fs == fs[..n] + fs[n..];
    KeysJoin(fs[..n], fs[n..]);
  }

  lemma StaysDistinct(store: seq<Finding>, kept: seq<Finding>, n: nat)
    requires DistinctKeys(store, KeyOf) && DistinctKeys(kept, KeyOf) && Keys(store) !! Keys(kept) && n <= |kept|
    ensures DistinctKeys(store + kept[..n], KeyOf)
  {
    var all := store + kept[..n];
    forall i, j | 0 <= i < j < |all| ensures KeyOf(all[i]) != KeyOf(all[j]) {
      if i < |store| <= j {
        assert store[i] in store && kept[j - |store|] in kept;
        assert KeyOf(store[i]) in Keys(store) && KeyOf(kept[j - |store|]) in Keys(kept);
      }
    }
  }
}
