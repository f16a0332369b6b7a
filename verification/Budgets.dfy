/** Concurrent calls of the two request executors as interleaved steps over their shared state: the atomic
    counters, the map behind a mutex and the semaphore. Any number of calls; any schedule. */
module Budgets {
  import opened Basics
  import opened Counting
  import Joining

  /** Which executor: the mutation executor's Execute or the detection executor's Do. */
  datatype Kind = Execute | Do

  /** maxTotal and maxPerTarget bound nothing when they are not positive; Do has no per-target bound. */
  datatype Config = Config(kind: Kind, maxTotal: int, maxPerTarget: int, slots: nat)

  ghost predicate ValidConfig(cfg: Config) {
    cfg.slots > 0 && (cfg.kind.Do? ==> cfg.maxPerTarget <= 0)
  }

  /** wellFormed stands for the checks on the request itself, inScope for the scope decision. */
  datatype Request = Request(mutated: bool, wellFormed: bool, inScope: bool,
                             endpoint: string, parameter: string, location: string)

  /** Where a call is. Fetched holds the count it read under the mutex, Bumped has written it back. */
  datatype Pc =
    | Begin | ChargeTotal | Lock | Locked | Fetched(n: nat) | Bumped | CheckTarget | Scope | Limiter
    | Waiting | Entered | Sending | Leaving | Finished(sent: bool)

  /** ticket and share are what the two counters returned to this call; 0 before that. */
  datatype Call = Call(req: Request, pc: Pc, ticket: nat, share: nat)

  datatype Shared = Shared(total: nat, perTarget: map<string, nat>, mutex: Option<nat>, inFlight: nat, requests: nat)

  datatype State = State(shared: Shared, calls: seq<Call>)

  function TargetKey(req: Request): string {
    req.endpoint + "\0" + req.parameter + "\0" + req.location
  }

  /** Requests share a budget exactly when endpoint, parameter and location agree, unless one of them holds the
      separator. */
  lemma TargetKeyIff(a: Request, b: Request)
    requires Joining.AllFree([a.endpoint, a.parameter, a.location], '\0')
    ensures TargetKey(a) == TargetKey(b)
       <==> a.endpoint == b.endpoint && a.parameter == b.parameter && a.location == b.location
  {
    TargetKeyJoins(a);
    TargetKeyJoins(b);
    if TargetKey(a) == TargetKey(b) {
      Joining.JoinDetermines([a.endpoint, a.parameter, a.location], [b.endpoint, b.parameter, b.location], '\0');
      assert [a.endpoint, a.parameter, a.location][0] == [b.endpoint, b.parameter, b.location][0];
      assert [a.endpoint, a.parameter, a.location][1] == [b.endpoint, b.parameter, b.location][1];
      assert [a.endpoint, a.parameter, a.location][2] == [b.endpoint, b.parameter, b.location][2];
    }
  }

  lemma TargetKeyJoins(r: Request)
    ensures TargetKey(r) == Joining.Join([r.endpoint, r.parameter, r.location], '\0')
  {
    var parts := [r.endpoint, r.parameter, r.location];
    assert parts[1..] == [r.parameter, r.location] && parts[1..][1..] == [r.location];
    assert "\0" == ['\0'];
    assert Joining.Join([r.location], '\0') == r.location;
    assert Joining.Join([r.parameter, r.location], '\0') == r.parameter + ['\0'] + r.location;
    assert TargetKey(r) == r.endpoint + ['\0'] + (r.parameter + ['\0'] + r.location);
  }

  function Per(m: map<string, nat>, key: string): nat {
    if key in m then m[key] else 0
  }

  /** The calls that charge the total budget: all of Do's, only the mutated ones of Execute's. */
  predicate Charges(cfg: Config, req: Request) {
    cfg.kind.Do? || req.mutated
  }

  function AfterBegin(cfg: Config, req: Request): Pc {
    if !req.wellFormed then Finished(false)
    else if cfg.kind.Do? then Scope
    else if req.mutated then ChargeTotal
    else Scope
  }

  predicate WithinTotal(cfg: Config, ticket: nat) {
    cfg.maxTotal <= 0 || ticket <= cfg.maxTotal
  }

  function AfterTotal(cfg: Config, ticket: nat): Pc {
    if !WithinTotal(cfg, ticket) then Finished(false)
    else if cfg.kind.Do? then Limiter
    else if cfg.maxPerTarget > 0 then Lock
    else Scope
  }

  function AfterScope(cfg: Config, req: Request): Pc {
    if !req.inScope then Finished(false) else if cfg.kind.Do? then ChargeTotal else Waiting
  }

  /** One atomic step of call p. */
  ghost predicate CallStep(cfg: Config, p: nat, g: Shared, c: Call, g': Shared, c': Call) {
    match c.pc
    case Begin => g' == g && c' == c.(pc := AfterBegin(cfg, c.req))
    case ChargeTotal =>
      g' == g.(total := g.total + 1) && c' == c.(ticket := g.total + 1, pc := AfterTotal(cfg, g.total + 1))
    case Lock => g.mutex.None? && g' == g.(mutex := Some(p)) && c' == c.(pc := Locked)
    case Locked => g' == g && c' == c.(pc := Fetched(Per(g.perTarget, TargetKey(c.req))))
    case Fetched(n) =>
      g' == g.(perTarget := g.perTarget[TargetKey(c.req) := n + 1]) && c' == c.(share := n + 1, pc := Bumped)
    case Bumped => g' == g.(mutex := None) && c' == c.(pc := CheckTarget)
    case CheckTarget => g' == g && c' == c.(pc := if c.share > cfg.maxPerTarget then Finished(false) else Scope)
    case Scope => g' == g && c' == c.(pc := AfterScope(cfg, c.req))
    case Limiter => g' == g && (c' == c.(pc := Waiting) || c' == c.(pc := Finished(false)))
    case Waiting =>
      || (g.inFlight < cfg.slots && g' == g.(inFlight := g.inFlight + 1) && c' == c.(pc := Entered))
      || (g' == g && c' == c.(pc := Finished(false)))
    case Entered => g' == g.(requests := g.requests + 1) && c' == c.(pc := Sending)
    case Sending => g' == g && c' == c.(pc := Leaving)
    case Leaving => g.inFlight > 0 && g' == g.(inFlight := g.inFlight - 1) && c' == c.(pc := Finished(true))
    case Finished(_) => false
  }

  ghost predicate Step(cfg: Config, s: State, s': State, p: nat) {
    && p < |s.calls| && |s'.calls| == |s.calls|
    && s'.calls == s.calls[p := s'.calls[p]]
    && CallStep(cfg, p, s.shared, s.calls[p], s'.shared, s'.calls[p])
  }

  ghost predicate Init(s: State) {
    && s.shared == Shared(0, map[], None, 0, 0)
    && forall i :: 0 <= i < |s.calls| ==> s.calls[i].pc == Begin && s.calls[i].ticket == 0 && s.calls[i].share == 0
  }

  ghost predicate Run(cfg: Config, trace: seq<State>, schedule: seq<nat>) {
    && |trace| == |schedule| + 1 && Init(trace[0])
    && forall i :: 0 <= i < |schedule| ==> Step(cfg, trace[i], trace[i + 1], schedule[i])
  }

  // ----- what is counted -----

  const Charged := (c: Call) => c.ticket > 0

  function PassedTotal(cfg: Config): Call -> bool {
    (c: Call) => c.ticket > 0 && WithinTotal(cfg, c.ticket)
  }

  function Counted(key: string): Call -> bool {
    (c: Call) => c.share > 0 && TargetKey(c.req) == key
  }

  function PassedTarget(cfg: Config, key: string): Call -> bool {
    (c: Call) => 0 < c.share <= cfg.maxPerTarget && TargetKey(c.req) == key
  }

  const HoldsSlot := (c: Call) => c.pc.Entered? || c.pc.Sending? || c.pc.Leaving?

  const Sent := (c: Call) => c.pc.Sending? || c.pc.Leaving? || (c.pc.Finished? && c.pc.sent)

  predicate InSection(c: Call) {
    c.pc.Locked? || c.pc.Fetched? || c.pc.Bumped?
  }

  function Capped(n: nat, cap: int): nat {
    if cap > 0 && n > cap then cap else n
  }

  // ----- the invariant -----

  /** How a call's own record and its position fit together. */
  ghost predicate Consistent(cfg: Config, c: Call) {
    && (c.ticket > 0 ==> Charges(cfg, c.req) && c.req.wellFormed)
    && (c.share > 0 ==> c.ticket > 0 && cfg.maxPerTarget > 0)
    && match c.pc
       case Begin => c.ticket == 0 && c.share == 0
       case ChargeTotal => c.ticket == 0 && c.share == 0 && Charges(cfg, c.req) && c.req.wellFormed
       case Lock => Admitted(cfg, c) && c.share == 0 && cfg.maxPerTarget > 0
       case Locked => Admitted(cfg, c) && c.share == 0 && cfg.maxPerTarget > 0
       case Fetched(_) => Admitted(cfg, c) && c.share == 0 && cfg.maxPerTarget > 0
       case Bumped => Admitted(cfg, c) && c.share > 0
       case CheckTarget => Admitted(cfg, c) && c.share > 0
       case Scope => if cfg.kind.Do? then c.ticket == 0 && c.share == 0 && c.req.wellFormed else Cleared(cfg, c)
       case Finished(sent) => sent ==> Cleared(cfg, c)
       case _ => Cleared(cfg, c)
  }

  ghost predicate Admitted(cfg: Config, c: Call) {
    c.ticket > 0 && WithinTotal(cfg, c.ticket)
  }

  /** Past every budget that applies to it. */
  ghost predicate Cleared(cfg: Config, c: Call) {
    if Charges(cfg, c.req) then Admitted(cfg, c) && (cfg.maxPerTarget > 0 ==> 0 < c.share <= cfg.maxPerTarget)
    else c.ticket == 0 && c.share == 0
  }

  /** Each counter equals the number of calls that raised it, and the tickets handed out below a cap
      are exactly as many as the cap allows. */
  ghost predicate Accounts(cfg: Config, s: State) {
    && s.shared.total == Count(s.calls, Charged)
    && Count(s.calls, PassedTotal(cfg)) == Capped(s.shared.total, cfg.maxTotal)
    && s.shared.inFlight == Count(s.calls, HoldsSlot) <= cfg.slots
    && s.shared.requests == Count(s.calls, Sent)
  }

  ghost predicate TargetAccounts(cfg: Config, s: State, key: string) {
    && Per(s.shared.perTarget, key) == Count(s.calls, Counted(key))
    && (cfg.maxPerTarget > 0 ==>
          Count(s.calls, PassedTarget(cfg, key)) == Capped(Per(s.shared.perTarget, key), cfg.maxPerTarget))
  }

  /** Only the owner of the mutex is in the critical section, where a count it read is still current. */
  ghost predicate Exclusive(s: State) {
    && (s.shared.mutex.Some? ==> s.shared.mutex.value < |s.calls| && InSection(s.calls[s.shared.mutex.value]))
    && forall i :: 0 <= i < |s.calls| && InSection(s.calls[i]) ==>
         s.shared.mutex == Some(i) && (s.calls[i].pc.Fetched? ==> s.calls[i].pc.n == Per(s.shared.perTarget, TargetKey(s.calls[i].req)))
  }

  ghost predicate Inv(cfg: Config, s: State) {
    && (forall i :: 0 <= i < |s.calls| ==> Consistent(cfg, s.calls[i]))
    && Accounts(cfg, s)
    && (forall key :: TargetAccounts(cfg, s, key))
    && Exclusive(s)
  }

  lemma InitInv(cfg: Config, s: State)
    requires Init(s)
    ensures Inv(cfg, s)
  {
    forall c | c in s.calls ensures c.pc == Begin && c.ticket == 0 && c.share == 0 {
    }
    CountNone(s.calls, Charged);
    CountNone(s.calls, PassedTotal(cfg));
    CountNone(s.calls, HoldsSlot);
    CountNone(s.calls, Sent);
    forall key ensures TargetAccounts(cfg, s, key) {
      CountNone(s.calls, Counted(key));
      CountNone(s.calls, PassedTarget(cfg, key));
    }
  }

  lemma StepConsistent(cfg: Config, s: State, s': State, p: nat)
    requires ValidConfig(cfg) && Inv(cfg, s) && Step(cfg, s, s', p)
    ensures Consistent(cfg, s'.calls[p])
  {
  }

  lemma StepAccounts(cfg: Config, s: State, s': State, p: nat)
    requires Inv(cfg, s) && Step(cfg, s, s', p)
    ensures Accounts(cfg, s')
  {
    var c := s'.calls[p];
    CountUpdate(s.calls, p, c, Charged);
    CountUpdate(s.calls, p, c, PassedTotal(cfg));
    CountUpdate(s.calls, p, c, HoldsSlot);
    CountUpdate(s.calls, p, c, Sent);
    assert Consistent(cfg, s.calls[p]);
  }

  lemma StepTargetAccounts(cfg: Config, s: State, s': State, p: nat, key: string)
    requires Inv(cfg, s) && Step(cfg, s, s', p)
    ensures TargetAccounts(cfg, s', key)
  {
    var c := s'.calls[p];
    assert TargetAccounts(cfg, s, key);
    CountUpdate(s.calls, p, c, Counted(key));
    CountUpdate(s.calls, p, c, PassedTarget(cfg, key));
    assert Consistent(cfg, s.calls[p]);
  }

  lemma StepExclusive(cfg: Config, s: State, s': State, p: nat)
    requires Inv(cfg, s) && Step(cfg, s, s', p)
    ensures Exclusive(s')
  {
    var c, c' := s.calls[p], s'.calls[p];
    assert InSection(c) ==> s.shared.mutex == Some(p);
    forall i | 0 <= i < |s'.calls| && InSection(s'.calls[i])
      ensures s'.shared.mutex == Some(i)
      ensures s'.calls[i].pc.Fetched? ==> s'.calls[i].pc.n == Per(s'.shared.perTarget, TargetKey(s'.calls[i].req))
    {
      if i != p {
        assert s'.calls[i] == s.calls[i];
        assert s.shared.mutex == Some(i) && !InSection(c);
      }
    }
  }

  lemma StepInv(cfg: Config, s: State, s': State, p: nat)
    requires ValidConfig(cfg) && Inv(cfg, s) && Step(cfg, s, s', p)
    ensures Inv(cfg, s')
  {
    StepConsistent(cfg, s, s', p);
    StepAccounts(cfg, s, s', p);
    forall key ensures TargetAccounts(cfg, s', key) {
      StepTargetAccounts(cfg, s, s', p, key);
    }
    StepExclusive(cfg, s, s', p);
  }

  lemma {:induction false} RunInv(cfg: Config, trace: seq<State>, schedule: seq<nat>, i: nat)
    requires ValidConfig(cfg) && Run(cfg, trace, schedule) && i < |trace|
    ensures Inv(cfg, trace[i])
  {
    if i == 0 {
      InitInv(cfg, trace[0]);
    } else {
      RunInv(cfg, trace, schedule, i - 1);
      StepInv(cfg, trace[i - 1], trace[i], schedule[i - 1]);
    }
  }

  // ----- what every schedule keeps -----

  const SentMutated := (c: Call) => Sent(c) && c.req.mutated

  function SentTo(endpoint: string, parameter: string, location: string): Call -> bool {
    (c: Call) => Sent(c) && c.req.mutated && c.req.endpoint == endpoint && c.req.parameter == parameter && c.req.location == location
  }

  const OnTheWire := (c: Call) => c.pc.Sending?

  /** At every moment of every schedule of Execute calls: no more mutated requests sent than the total
      budget, no more to one endpoint, parameter and location than the target budget, no more requests on
      the wire than slots, and original requests charged to neither budget. */
  lemma ExecuteBudgets(cfg: Config, trace: seq<State>, schedule: seq<nat>, i: nat, endpoint: string, parameter: string, location: string)
    requires ValidConfig(cfg) && cfg.kind.Execute? && Run(cfg, trace, schedule) && i < |trace|
    ensures cfg.maxTotal > 0 ==> Count(trace[i].calls, SentMutated) <= cfg.maxTotal
    ensures cfg.maxPerTarget > 0 ==> Count(trace[i].calls, SentTo(endpoint, parameter, location)) <= cfg.maxPerTarget
    ensures Count(trace[i].calls, OnTheWire) <= cfg.slots
    ensures forall c :: c in trace[i].calls && !c.req.mutated ==> c.ticket == 0 && c.share == 0
  {
    RunInv(cfg, trace, schedule, i);
    var calls := trace[i].calls;
    forall c | c in calls ensures Consistent(cfg, c) {
    }
    CountMonotone(calls, SentMutated, PassedTotal(cfg));
    CountMonotone(calls, OnTheWire, HoldsSlot);
    var key := endpoint + "\0" + parameter + "\0" + location;
    assert TargetAccounts(cfg, trace[i], key);
    if cfg.maxPerTarget > 0 {
      CountMonotone(calls, SentTo(endpoint, parameter, location), PassedTarget(cfg, key));
    }
  }

  /** The analogous bound for Do, which charges every request that is in scope. */
  lemma DoBudgets(cfg: Config, trace: seq<State>, schedule: seq<nat>, i: nat)
    requires ValidConfig(cfg) && cfg.kind.Do? && Run(cfg, trace, schedule) && i < |trace|
    ensures cfg.maxTotal > 0 ==> Count(trace[i].calls, Sent) <= cfg.maxTotal
    ensures Count(trace[i].calls, OnTheWire) <= cfg.slots
  {
    RunInv(cfg, trace, schedule, i);
    var calls := trace[i].calls;
    forall c | c in calls ensures Consistent(cfg, c) {
    }
    CountMonotone(calls, Sent, PassedTotal(cfg));
    CountMonotone(calls, OnTheWire, HoldsSlot);
  }

  ghost predicate AllFinished(s: State) {
    forall i :: 0 <= i < |s.calls| ==> s.calls[i].pc.Finished?
  }

  /** The calls that try to charge the total budget. */
  function Attempts(cfg: Config): Call -> bool {
    (c: Call) => c.req.wellFormed && Charges(cfg, c.req) && (cfg.kind.Do? ==> c.req.inScope)
  }

  /** A finished call attempted the total budget exactly when it holds a ticket. */
  ghost predicate Settled(cfg: Config, c: Call) {
    && (c.ticket > 0 ==> Attempts(cfg)(c))
    && (c.pc.Finished? && Attempts(cfg)(c) ==> c.ticket > 0)
    && (cfg.kind.Do? && (c.pc.ChargeTotal? || c.pc.Limiter?) ==> c.req.inScope)
    && (c.pc.Scope? || c.pc.ChargeTotal? ==> c.req.wellFormed)
    && (!(c.pc.Begin? || c.pc.Scope? || c.pc.ChargeTotal? || c.pc.Finished?) && Charges(cfg, c.req) ==> c.ticket > 0)
    && (c.pc.Scope? && cfg.kind.Execute? && c.req.mutated ==> c.ticket > 0)
  }

  lemma {:induction false} RunSettles(cfg: Config, trace: seq<State>, schedule: seq<nat>, i: nat)
    requires ValidConfig(cfg) && Run(cfg, trace, schedule) && i < |trace|
    ensures forall c :: c in trace[i].calls ==> Settled(cfg, c)
  {
    if i > 0 {
      RunSettles(cfg, trace, schedule, i - 1);
      RunInv(cfg, trace, schedule, i - 1);
      var s, s', p := trace[i - 1], trace[i], schedule[i - 1];
      assert s.calls[p] in s.calls && Consistent(cfg, s.calls[p]);
      SettledStep(cfg, p, s.shared, s.calls[p], s'.shared, s'.calls[p]);
      forall c | c in s'.calls ensures Settled(cfg, c) {
        var k :| 0 <= k < |s'.calls| && s'.calls[k] == c;
        assert k != p ==> c == s.calls[k];
      }
    }
  }

  lemma SettledStep(cfg: Config, p: nat, g: Shared, c: Call, g': Shared, c': Call)
    requires ValidConfig(cfg) && Settled(cfg, c) && Consistent(cfg, c) && CallStep(cfg, p, g, c, g', c')
    ensures Settled(cfg, c')
  {
  }

  /** When all calls have finished, exactly min(attempts, cap) passed the total budget, as many per target as
      its cap allows, all slots are free again and the mutex is released. */
  lemma FinishedRunsBalance(cfg: Config, trace: seq<State>, schedule: seq<nat>)
    requires ValidConfig(cfg) && Run(cfg, trace, schedule) && AllFinished(trace[|schedule|])
    ensures var s := trace[|schedule|];
            && Count(s.calls, PassedTotal(cfg)) == Capped(Count(s.calls, Attempts(cfg)), cfg.maxTotal)
            && s.shared.inFlight == 0 && s.shared.mutex.None?
            && s.shared.requests == Count(s.calls, Sent)
    ensures cfg.maxPerTarget > 0 ==> forall key ::
              Count(trace[|schedule|].calls, PassedTarget(cfg, key))
              == Capped(Count(trace[|schedule|].calls, Counted(key)), cfg.maxPerTarget)
  {
    var s := trace[|schedule|];
    RunInv(cfg, trace, schedule, |schedule|);
    RunSettles(cfg, trace, schedule, |schedule|);
    forall c | c in s.calls ensures c.pc.Finished? && Settled(cfg, c) {
    }
    CountEqual(s.calls, Charged, Attempts(cfg));
    CountNone(s.calls, HoldsSlot);
    if cfg.maxPerTarget > 0 {
      forall key ensures Count(s.calls, PassedTarget(cfg, key)) == Capped(Count(s.calls, Counted(key)), cfg.maxPerTarget) {
        assert TargetAccounts(cfg, s, key);
      }
    }
  }

  /** Leaving without having been served: the caller's context ended while waiting. */
  ghost predicate GivesUp(c: Call, c': Call) {
    (c.pc.Waiting? || c.pc.Limiter?) && c'.pc.Finished?
  }

  /** The call that must move first when call i cannot: the owner of the mutex, or one holding a slot. */
  lemma Blocking(cfg: Config, s: State, i: nat) returns (p: nat)
    requires ValidConfig(cfg) && Inv(cfg, s) && i < |s.calls| && !s.calls[i].pc.Finished?
    ensures p < |s.calls| && !s.calls[p].pc.Finished? && Ready(cfg, s.shared, s.calls[p])
  {
    p := i;
    if s.calls[i].pc.Lock? && s.shared.mutex.Some? {
      p := s.shared.mutex.value;
    } else if s.calls[i].pc.Waiting? && s.shared.inFlight == cfg.slots {
      p := CountPositive(s.calls, HoldsSlot);
      assert HoldsSlot(s.calls[p]);
    }
    if HoldsSlot(s.calls[p]) {
      CountMember(s.calls, p, HoldsSlot);
    }
  }

  ghost predicate Ready(cfg: Config, g: Shared, c: Call) {
    && (c.pc.Lock? ==> g.mutex.None?)
    && (c.pc.Waiting? ==> g.inFlight < cfg.slots)
    && (c.pc.Leaving? ==> g.inFlight > 0)
  }

  /** No schedule gets stuck: while some call has not finished, some call can take a step without giving up. */
  lemma NeverStuck(cfg: Config, trace: seq<State>, schedule: seq<nat>)
    requires ValidConfig(cfg) && Run(cfg, trace, schedule) && !AllFinished(trace[|schedule|])
    ensures exists s', p: nat :: Step(cfg, trace[|schedule|], s', p) && !GivesUp(trace[|schedule|].calls[p], s'.calls[p])
  {
    var s := trace[|schedule|];
    RunInv(cfg, trace, schedule, |schedule|);
    var i: nat :| 0 <= i < |s.calls| && !s.calls[i].pc.Finished?;
    var p := Blocking(cfg, s, i);
    var g', c' := CanStep(cfg, p, s.shared, s.calls[p]);
    var s' := State(g', s.calls[p := c']);
    assert Step(cfg, s, s', p);
  }

  lemma CanStep(cfg: Config, p: nat, g: Shared, c: Call) returns (g': Shared, c': Call)
    requires !c.pc.Finished? && Ready(cfg, g, c)
    ensures CallStep(cfg, p, g, c, g', c') && !GivesUp(c, c')
  {
    g', c' := g, c;
    match c.pc
    case Begin => c' := c.(pc := AfterBegin(cfg, c.req));
    case ChargeTotal =>
      g' := g.(total := g.total + 1);
      c' := c.(ticket := g.total + 1, pc := AfterTotal(cfg, g.total + 1));
    case Lock =>
      g' := g.(mutex := Some(p));
      c' := c.(pc := Locked);
    case Locked => c' := c.(pc := Fetched(Per(g.perTarget, TargetKey(c.req))));
    case Fetched(n) =>
      g' := g.(perTarget := g.perTarget[TargetKey(c.req) := n + 1]);
      c' := c.(share := n + 1, pc := Bumped);
    case Bumped =>
      g' := g.(mutex := None);
      c' := c.(pc := CheckTarget);
    case CheckTarget => c' := c.(pc := if c.share > cfg.maxPerTarget then Finished(false) else Scope);
    case Scope => c' := c.(pc := AfterScope(cfg, c.req));
    case Limiter => c' := c.(pc := Waiting);
    case Waiting =>
      g' := g.(inFlight := g.inFlight + 1);
      c' := c.(pc := Entered);
    case Entered =>
      g' := g.(requests := g.requests + 1);
      c' := c.(pc := Sending);
    case Sending => c' := c.(pc := Leaving);
    case Leaving =>
      g' := g.(inFlight := g.inFlight - 1);
      c' := c.(pc := Finished(true));
  }

  // ----- who is sent -----

  /** A call that has left this far behind it: the request is well-formed once the call has begun, and in scope
      once the scope was checked. */
  ghost predicate Checked(cfg: Config, c: Call) {
    match c.pc
    case Begin => true
    case ChargeTotal => c.req.wellFormed && (cfg.kind.Do? ==> c.req.inScope)
    case Lock => c.req.wellFormed && cfg.kind.Execute?
    case Locked => c.req.wellFormed && cfg.kind.Execute?
    case Fetched(_) => c.req.wellFormed && cfg.kind.Execute?
    case Bumped => c.req.wellFormed && cfg.kind.Execute?
    case CheckTarget => c.req.wellFormed && cfg.kind.Execute?
    case Scope => c.req.wellFormed
    case Finished(sent) => sent ==> c.req.wellFormed && c.req.inScope
    case _ => c.req.wellFormed && c.req.inScope
  }

  lemma CheckedStep(cfg: Config, p: nat, g: Shared, c: Call, g': Shared, c': Call)
    requires ValidConfig(cfg) && Checked(cfg, c) && CallStep(cfg, p, g, c, g', c')
    ensures Checked(cfg, c') && c'.req == c.req
  {
  }

  lemma {:induction false} RunChecked(cfg: Config, trace: seq<State>, schedule: seq<nat>, i: nat, k: nat)
    requires ValidConfig(cfg) && Run(cfg, trace, schedule) && i < |trace| && k < |trace[i].calls|
    ensures Checked(cfg, trace[i].calls[k])
  {
    if i > 0 {
      var s, s', p := trace[i - 1], trace[i], schedule[i - 1];
      RunChecked(cfg, trace, schedule, i - 1, k);
      if k == p {
        CheckedStep(cfg, p, s.shared, s.calls[p], s'.shared, s'.calls[p]);
      } else {
        assert s'.calls[k] == s.calls[k];
      }
    }
  }

  /** In every state of every schedule of either executor: no request is sent that is malformed or out of scope. */
  lemma SentIsInScope(cfg: Config, trace: seq<State>, schedule: seq<nat>, i: nat, c: Call)
    requires ValidConfig(cfg) && Run(cfg, trace, schedule) && i < |trace| && c in trace[i].calls
    ensures Sent(c) ==> c.req.wellFormed && c.req.inScope
  {
    var k: nat :| k < |trace[i].calls| && trace[i].calls[k] == c;
    RunChecked(cfg, trace, schedule, i, k);
  }

  /** Its two counters, where it was counted, were over their caps. */
  predicate OverBudget(cfg: Config, c: Call) {
    (cfg.maxTotal > 0 && c.ticket > cfg.maxTotal) || (cfg.maxPerTarget > 0 && c.share > cfg.maxPerTarget)
  }

  /** Before state i call k stopped waiting for the limiter or for a slot and finished. */
  ghost predicate GaveUp(trace: seq<State>, schedule: seq<nat>, i: nat, k: nat)
    requires i < |trace| == |schedule| + 1
  {
    exists j :: 0 <= j < i && schedule[j] == k && k < |trace[j].calls| && k < |trace[j + 1].calls|
                && GivesUp(trace[j].calls[k], trace[j + 1].calls[k])
  }

  ghost predicate Explained(cfg: Config, c: Call, gaveUp: bool) {
    c.pc == Finished(false) ==> !c.req.wellFormed || !c.req.inScope || OverBudget(cfg, c) || gaveUp
  }

  lemma ExplainedStep(cfg: Config, p: nat, g: Shared, c: Call, g': Shared, c': Call, gaveUp: bool)
    requires ValidConfig(cfg) && CallStep(cfg, p, g, c, g', c') && Explained(cfg, c, gaveUp) && Consistent(cfg, c)
    ensures Explained(cfg, c', gaveUp || GivesUp(c, c'))
  {
  }

  lemma {:induction false} RunExplained(cfg: Config, trace: seq<State>, schedule: seq<nat>, i: nat, k: nat)
    requires ValidConfig(cfg) && Run(cfg, trace, schedule) && i < |trace| && k < |trace[i].calls|
    ensures Explained(cfg, trace[i].calls[k], GaveUp(trace, schedule, i, k))
  {
    if i > 0 {
      var s, s', p := trace[i - 1], trace[i], schedule[i - 1];
      RunExplained(cfg, trace, schedule, i - 1, k);
      if k == p {
        RunInv(cfg, trace, schedule, i - 1);
        ExplainedStep(cfg, p, s.shared, s.calls[p], s'.shared, s'.calls[p], GaveUp(trace, schedule, i - 1, k));
        if GivesUp(s.calls[p], s'.calls[p]) {
          assert schedule[i - 1] == k;
        }
      } else {
        assert s'.calls[k] == s.calls[k];
      }
    }
  }

  /** A finished call was sent if it was well-formed, in scope and within its budgets and did not give up
      waiting; and it was sent only if it was well-formed, in scope and within its budgets. */
  lemma FinishedIsSent(cfg: Config, trace: seq<State>, schedule: seq<nat>, i: nat, k: nat)
    requires ValidConfig(cfg) && Run(cfg, trace, schedule) && i < |trace| && k < |trace[i].calls|
    requires trace[i].calls[k].pc.Finished?
    ensures var c := trace[i].calls[k];
            && (c.req.wellFormed && c.req.inScope && !OverBudget(cfg, c) && !GaveUp(trace, schedule, i, k) ==> Sent(c))
            && (Sent(c) ==> c.req.wellFormed && c.req.inScope && !OverBudget(cfg, c))
  {
    RunExplained(cfg, trace, schedule, i, k);
    RunChecked(cfg, trace, schedule, i, k);
    RunInv(cfg, trace, schedule, i);
    assert Consistent(cfg, trace[i].calls[k]);
  }
}
