/**
 * The service token cache (apps/staff/lib/api.ts): one module-level token, one
 * module-level request in flight, and any number of callers interleaved with
 * the request's settlement, its `finally` callback and the clock.
 *
 * A promise is a request number; its settlement, the callback that clears the
 * slot, and the resumption of each caller are separate steps, as the event loop
 * runs them, with any other step allowed in between.
 */
module TokenCache {
  import opened Wrappers
  import opened Text

  const TOKEN_EXPIRY_MARGIN_MS: int := 60_000
  const TOKEN_FALLBACK_TTL_MS: int := 45 * 60_000

  datatype CachedToken = CachedToken(token: string, expiresAtMs: int)

  /** What the metadata server's answer comes to. */
  datatype Outcome = Issued(cached: CachedToken) | Failed

  datatype Request = Pending | Settled(outcome: Outcome) | Finished(outcome: Outcome)

  datatype Caller =
    | OffPlatform
    | FromCache(given: CachedToken, atMs: int)
    | Awaiting(request: nat)
    | Answered(request: nat, outcome: Outcome, atMs: int)

  /** The HTTP exchange: it throws or times out, is refused, or carries a body with the expiry its payload states. */
  datatype Response = Rejected | NotOk | Body(text: string, statedExpiryMs: Option<int>)

  datatype State = State(
    onPlatform: bool,
    nowMs: int,
    cachedToken: Option<CachedToken>,
    inflightToken: Option<nat>,
    started: nat,
    requests: map<nat, Request>,
    callers: map<nat, Caller>)

  datatype Step =
    | Call(caller: nat)
    | Settle(request: nat, response: Response)
    | Finally(request: nat)
    | Resume(caller: nat)
    | Tick(nowMs: int)

  function Init(onPlatform: bool, nowMs: int): State {
    State(onPlatform, nowMs, None, None, 0, map[], map[])
  }

  /** `requestIdToken` once its fetch has come back. */
  function OutcomeOf(response: Response, nowMs: int): Outcome {
    match response
    case Rejected => Failed
    case NotOk => Failed
    case Body(text, stated) =>
      if Trim(text) == "" then Failed
      else Issued(CachedToken(Trim(text), stated.GetOr(nowMs + TOKEN_FALLBACK_TTL_MS)))
  }

  predicate Fresh(cached: Option<CachedToken>, nowMs: int) {
    cached.Some? && cached.value.expiresAtMs - TOKEN_EXPIRY_MARGIN_MS > nowMs
  }

  predicate Enabled(s: State, step: Step) {
    match step
    case Call(caller) => caller !in s.callers
    case Settle(request, _) => request in s.requests && s.requests[request].Pending?
    case Finally(request) => request in s.requests && s.requests[request].Settled?
    case Resume(caller) =>
      && caller in s.callers && s.callers[caller].Awaiting?
      && s.callers[caller].request in s.requests && s.requests[s.callers[caller].request].Finished?
    case Tick(_) => true
  }

  function CallStep(s: State, caller: nat): State {
    if !s.onPlatform then s.(callers := s.callers[caller := OffPlatform])
    else if Fresh(s.cachedToken, s.nowMs) then
      s.(callers := s.callers[caller := FromCache(s.cachedToken.value, s.nowMs)])
    else if s.inflightToken.Some? then
      s.(callers := s.callers[caller := Awaiting(s.inflightToken.value)])
    else
      var request := s.started;
      s.(requests := s.requests[request := Pending], started := request + 1, inflightToken := Some(request),
         callers := s.callers[caller := Awaiting(request)])
  }

  function SettleStep(s: State, request: nat, response: Response): State {
    var outcome := OutcomeOf(response, s.nowMs);
    s.(requests := s.requests[request := Settled(outcome)],
       cachedToken := if outcome.Issued? then Some(outcome.cached) else s.cachedToken)
  }

  function Next(s: State, step: Step): State
    requires Enabled(s, step)
  {
    match step
    case Call(caller) => CallStep(s, caller)
    case Settle(request, response) => SettleStep(s, request, response)
    case Finally(request) =>
      s.(requests := s.requests[request := Finished(s.requests[request].outcome)], inflightToken := None)
    case Resume(caller) =>
      var request := s.callers[caller].request;
      s.(callers := s.callers[caller := Answered(request, s.requests[request].outcome, s.nowMs)])
    case Tick(nowMs) => s.(nowMs := nowMs)
  }

  // ---------------------------------------------------------------- the module

  /** The two module fields, with the runtime's own bookkeeping beside them. */
  class TokenModule {
    const onPlatform: bool
    var cachedToken: Option<CachedToken>
    var inflightToken: Option<nat>
    var nowMs: int
    var started: nat
    var requests: map<nat, Request>
    var callers: map<nat, Caller>

    function View(): State
      reads this
    {
      State(onPlatform, nowMs, cachedToken, inflightToken, started, requests, callers)
    }

    constructor (onPlatform: bool, nowMs: int)
      ensures View() == Init(onPlatform, nowMs)
    {
      this.onPlatform, this.nowMs := onPlatform, nowMs;
      cachedToken, inflightToken, started, requests, callers := None, None, 0, map[], map[];
    }

    /** `serviceIdToken`, up to its `await`. */
    method ServiceIdToken(caller: nat)
      requires Enabled(View(), Call(caller))
      modifies this
      ensures View() == Next(old(View()), Call(caller))
    {
      if !onPlatform {
        callers := callers[caller := OffPlatform];
        return;
      }
      if cachedToken.Some? && cachedToken.value.expiresAtMs - TOKEN_EXPIRY_MARGIN_MS > nowMs {
        callers := callers[caller := FromCache(cachedToken.value, nowMs)];
        return;
      }
      if inflightToken.None? {
        requests := requests[started := Pending];
        inflightToken := Some(started);
        started := started + 1;
      }
      callers := callers[caller := Awaiting(inflightToken.value)];
    }

    /** `requestIdToken` from the response on. */
    method RequestIdToken(request: nat, response: Response)
      requires Enabled(View(), Settle(request, response))
      modifies this
      ensures View() == Next(old(View()), Settle(request, response))
    {
      hide Trim;
      if response.Body? && Trim(response.text) != "" {
        var expiresAtMs := if response.statedExpiryMs.Some? then response.statedExpiryMs.value
                           else nowMs + TOKEN_FALLBACK_TTL_MS;
        cachedToken := Some(CachedToken(Trim(response.text), expiresAtMs));
        requests := requests[request := Settled(Issued(cachedToken.value))];
      } else {
        requests := requests[request := Settled(Failed)];
      }
    }

    /** The `finally` callback: it clears the slot, whoever holds it. */
    method ClearSlot(request: nat)
      requires Enabled(View(), Finally(request))
      modifies this
      ensures View() == Next(old(View()), Finally(request))
    {
      inflightToken := None;
      requests := requests[request := Finished(requests[request].outcome)];
    }

    /** The caller's `await` returning or throwing. */
    method ResumeCaller(caller: nat)
      requires Enabled(View(), Resume(caller))
      modifies this
      ensures View() == Next(old(View()), Resume(caller))
    {
      var request := callers[caller].request;
      callers := callers[caller := Answered(request, requests[request].outcome, nowMs)];
    }
  }

  // ---------------------------------------------------------------- the invariant

  /** A token some request obtained, with the expiry it was stored under. */
  ghost predicate Obtained(s: State, cached: CachedToken) {
    exists r :: r in s.requests && !s.requests[r].Pending? && s.requests[r].outcome == Issued(cached)
  }

  ghost predicate Valid(s: State) {
    && (forall r: nat :: r in s.requests <==> r < s.started)
    && (s.inflightToken.Some? ==> s.inflightToken.value in s.requests)
    && (forall r | r in s.requests :: !s.requests[r].Finished? <==> s.inflightToken == Some(r))
    && (s.cachedToken.Some? ==> Obtained(s, s.cachedToken.value))
    && (forall c | c in s.callers :: ValidCaller(s, s.callers[c]))
  }

  ghost predicate ValidCaller(s: State, caller: Caller) {
    match caller
    case OffPlatform => !s.onPlatform
    case FromCache(given, atMs) => given.expiresAtMs - TOKEN_EXPIRY_MARGIN_MS > atMs && Obtained(s, given)
    case Awaiting(request) => request in s.requests
    case Answered(request, outcome, _) => request in s.requests && s.requests[request] == Finished(outcome)
  }

  lemma InitValid(onPlatform: bool, nowMs: int)
    ensures Valid(Init(onPlatform, nowMs))
  {
  }

  /** Later states keep every settled request's outcome. */
  ghost predicate Extends(s: State, t: State) {
    && s.onPlatform == t.onPlatform
    && (forall r | r in s.requests :: r in t.requests
          && (s.requests[r].Settled? ==> !t.requests[r].Pending? && t.requests[r].outcome == s.requests[r].outcome)
          && (s.requests[r].Finished? ==> t.requests[r] == s.requests[r]))
    && (forall c | c in s.callers :: c in t.callers
          && (t.callers[c] == s.callers[c]
              || (s.callers[c].Awaiting? && t.callers[c].Answered? && t.callers[c].request == s.callers[c].request)))
  }

  lemma StepExtends(s: State, step: Step)
    requires Valid(s) && Enabled(s, step)
    ensures Extends(s, Next(s, step))
  {
  }

  lemma ObtainedExtends(s: State, t: State, cached: CachedToken)
    requires Extends(s, t) && Obtained(s, cached)
    ensures Obtained(t, cached)
  {
    var r :| r in s.requests && !s.requests[r].Pending? && s.requests[r].outcome == Issued(cached);
    assert r in t.requests && t.requests[r].outcome == Issued(cached);
  }

  /** Callers and the cached token stay justified as requests move on. */
  lemma CallersStayValid(s: State, t: State)
    requires Valid(s) && Extends(s, t)
    ensures forall c | c in s.callers && t.callers[c] == s.callers[c] :: ValidCaller(t, t.callers[c])
    ensures s.cachedToken.Some? ==> Obtained(t, s.cachedToken.value)
  {
    hide Obtained;
    forall cached | Obtained(s, cached) ensures Obtained(t, cached) { ObtainedExtends(s, t, cached); }
    forall c | c in s.callers && t.callers[c] == s.callers[c] ensures ValidCaller(t, t.callers[c]) {
      assert ValidCaller(s, s.callers[c]);
    }
  }

  lemma CallValid(s: State, caller: nat)
    requires Valid(s) && Enabled(s, Call(caller))
    ensures Valid(Next(s, Call(caller)))
  {
    hide Obtained, Trim;
    var t := Next(s, Call(caller));
    StepExtends(s, Call(caller));
    CallersStayValid(s, t);
    forall c | c in t.callers ensures ValidCaller(t, t.callers[c]) {
      if c != caller { assert t.callers[c] == s.callers[c]; }
    }
  }

  lemma SettleValid(s: State, request: nat, response: Response)
    requires Valid(s) && Enabled(s, Settle(request, response))
    ensures Valid(Next(s, Settle(request, response)))
  {
    var t := Next(s, Settle(request, response));
    StepExtends(s, Settle(request, response));
    CallersStayValid(s, t);
    assert t.requests[request] == Settled(OutcomeOf(response, s.nowMs));
  }

  lemma FinallyValid(s: State, request: nat)
    requires Valid(s) && Enabled(s, Finally(request))
    ensures Valid(Next(s, Finally(request)))
  {
    var t := Next(s, Finally(request));
    StepExtends(s, Finally(request));
    CallersStayValid(s, t);
    hide Obtained;
  }

  /** Every step keeps the invariant. */
  lemma StepValid(s: State, step: Step)
    requires Valid(s) && Enabled(s, step)
    ensures Valid(Next(s, step))
  {
    match step
    case Call(caller) => CallValid(s, caller);
    case Settle(request, response) => SettleValid(s, request, response);
    case Finally(request) => FinallyValid(s, request);
    case Resume(_) => StepExtends(s, step); CallersStayValid(s, Next(s, step));
    case Tick(_) => StepExtends(s, step); CallersStayValid(s, Next(s, step));
  }

  // ---------------------------------------------------------------- runs

  /** Each step is enabled where it is taken. */
  ghost predicate IsRun(s: State, steps: seq<Step>)
    decreases |steps|
  {
    steps == [] || (Enabled(s, steps[0]) && IsRun(Next(s, steps[0]), steps[1..]))
  }

  function After(s: State, steps: seq<Step>): State
    requires IsRun(s, steps)
    decreases |steps|
  {
    if steps == [] then s else After(Next(s, steps[0]), steps[1..])
  }

  lemma ExtendsTransitive(s: State, t: State, u: State)
    requires Extends(s, t) && Extends(t, u)
    ensures Extends(s, u)
  {
  }

  lemma {:induction false} RunValid(s: State, steps: seq<Step>)
    requires Valid(s) && IsRun(s, steps)
    ensures Valid(After(s, steps)) && Extends(s, After(s, steps))
    decreases |steps|
  {
    if steps != [] {
      StepValid(s, steps[0]);
      StepExtends(s, steps[0]);
      RunValid(Next(s, steps[0]), steps[1..]);
      ExtendsTransitive(s, Next(s, steps[0]), After(s, steps));
    }
  }

  /** Over every interleaving, at most one metadata request is outstanding. */
  lemma SingleFlight(onPlatform: bool, nowMs: int, steps: seq<Step>, r1: nat, r2: nat)
    requires IsRun(Init(onPlatform, nowMs), steps)
    requires var s := After(Init(onPlatform, nowMs), steps);
             r1 in s.requests && r2 in s.requests && s.requests[r1].Pending? && s.requests[r2].Pending?
    ensures r1 == r2
  {
    InitValid(onPlatform, nowMs);
    RunValid(Init(onPlatform, nowMs), steps);
  }

  /** Whoever joined a request gets that request's outcome, the same for all who joined, whatever happens in between. */
  lemma JoinersGetItsOutcome(onPlatform: bool, nowMs: int, first: seq<Step>, more: seq<Step>, caller: nat)
    requires IsRun(Init(onPlatform, nowMs), first)
    requires var s := After(Init(onPlatform, nowMs), first); caller in s.callers && s.callers[caller].Awaiting?
    requires IsRun(After(Init(onPlatform, nowMs), first), more)
    ensures var s := After(Init(onPlatform, nowMs), first);
            var t := After(s, more);
            var request := s.callers[caller].request;
            && caller in t.callers && request in t.requests
            && (t.callers[caller] == Awaiting(request)
                || (t.requests[request].Finished?
                    && t.callers[caller].Answered?
                    && t.callers[caller].request == request
                    && t.callers[caller].outcome == t.requests[request].outcome))
  {
    InitValid(onPlatform, nowMs);
    RunValid(Init(onPlatform, nowMs), first);
    RunValid(After(Init(onPlatform, nowMs), first), more);
  }

  /** A token handed out of the cache was obtained by some request and had more than the margin left at that moment. */
  lemma CacheKeepsTheMargin(onPlatform: bool, nowMs: int, steps: seq<Step>, caller: nat)
    requires IsRun(Init(onPlatform, nowMs), steps)
    requires var s := After(Init(onPlatform, nowMs), steps); caller in s.callers && s.callers[caller].FromCache?
    ensures var s := After(Init(onPlatform, nowMs), steps);
            var c := s.callers[caller];
            c.given.expiresAtMs - c.atMs > TOKEN_EXPIRY_MARGIN_MS && Obtained(s, c.given)
  {
    InitValid(onPlatform, nowMs);
    RunValid(Init(onPlatform, nowMs), steps);
  }

  // ---------------------------------------------------------------- what is cached

  lemma {:induction false} AfterSnoc(s: State, steps: seq<Step>, step: Step)
    ensures IsRun(s, steps + [step]) <==> IsRun(s, steps) && Enabled(After(s, steps), step)
    ensures IsRun(s, steps + [step]) ==> After(s, steps + [step]) == Next(After(s, steps), step)
    decreases |steps|
  {
    hide Enabled, Next;
    if steps == [] {
      assert [] + [step] == [step] && [step][1..] == [];
    } else {
      assert (steps + [step])[0] == steps[0] && (steps + [step])[1..] == steps[1..] + [step];
      if Enabled(s, steps[0]) { AfterSnoc(Next(s, steps[0]), steps[1..], step); }
    }
  }

  /** The time on the clock: what the last tick said. */
  function Clock(nowMs: int, steps: seq<Step>): int
    decreases |steps|
  {
    if steps == [] then nowMs
    else if steps[|steps| - 1].Tick? then steps[|steps| - 1].nowMs
    else Clock(nowMs, steps[..|steps| - 1])
  }

  /** The answer carries a token. */
  predicate Issues(step: Step) {
    step.Settle? && step.response.Body? && Trim(step.response.text) != ""
  }

  /**
   * The token of the last answer that carried one, with the expiry it stated,
   * or 45 minutes from when it came.
   */
  function LastIssued(nowMs: int, steps: seq<Step>): Option<CachedToken>
    decreases |steps|
  {
    if steps == [] then None
    else
      var before, last := steps[..|steps| - 1], steps[|steps| - 1];
      if Issues(last) then
        Some(CachedToken(Trim(last.response.text),
                         if last.response.statedExpiryMs.Some? then last.response.statedExpiryMs.value
                         else Clock(nowMs, before) + 45 * 60 * 1000))
      else LastIssued(nowMs, before)
  }

  /** Over every run the cache holds just that. */
  lemma {:induction false} CacheIsLastIssued(onPlatform: bool, nowMs: int, steps: seq<Step>)
    requires IsRun(Init(onPlatform, nowMs), steps)
    ensures var s := After(Init(onPlatform, nowMs), steps);
            s.onPlatform == onPlatform && s.nowMs == Clock(nowMs, steps) && s.cachedToken == LastIssued(nowMs, steps)
    decreases |steps|
  {
    hide Trim;
    if steps != [] {
      var before, last := steps[..|steps| - 1], steps[|steps| - 1];
      assert steps == before + [last];
      AfterSnoc(Init(onPlatform, nowMs), before, last);
      CacheIsLastIssued(onPlatform, nowMs, before);
      StepKeepsCache(After(Init(onPlatform, nowMs), before), last);
    }
  }

  lemma StepKeepsCache(s: State, step: Step)
    requires Enabled(s, step)
    ensures var t := Next(s, step);
            && t.onPlatform == s.onPlatform
            && t.nowMs == (if step.Tick? then step.nowMs else s.nowMs)
            && (Issues(step) ==> t.cachedToken == Some(CachedToken(Trim(step.response.text),
                  if step.response.statedExpiryMs.Some? then step.response.statedExpiryMs.value
                  else s.nowMs + 45 * 60 * 1000)))
            && (!Issues(step) ==> t.cachedToken == s.cachedToken)
  {
    hide Trim;
  }

  /** The standing token has more than the minute's margin left. */
  predicate Serves(cached: Option<CachedToken>, nowMs: int) {
    cached.Some? && cached.value.expiresAtMs - 60 * 1000 > nowMs
  }

  /**
   * After any run a new caller on the platform gets the standing token, and no
   * request is made, exactly while that token has more than the margin left;
   * it starts a request exactly when it does not and every request is over; and
   * otherwise it joins the one that is not.
   */
  lemma CallServesOrStarts(nowMs: int, steps: seq<Step>, caller: nat)
    requires IsRun(Init(true, nowMs), steps) && caller !in After(Init(true, nowMs), steps).callers
    ensures var s := After(Init(true, nowMs), steps);
            var t := Next(s, Call(caller));
            var standing := LastIssued(nowMs, steps);
            var idle := forall r | r in s.requests :: s.requests[r].Finished?;
            && (Serves(standing, Clock(nowMs, steps)) ==>
                  t.callers[caller] == FromCache(standing.value, Clock(nowMs, steps))
                  && t.requests == s.requests && t.started == s.started)
            && (t.started == s.started + 1 <==> !Serves(standing, Clock(nowMs, steps)) && idle)
            && (t.started != s.started + 1 ==> t.started == s.started && t.requests == s.requests)
            && (!Serves(standing, Clock(nowMs, steps)) && !idle ==>
                  t.callers[caller].Awaiting? && t.callers[caller].request in s.requests
                  && !s.requests[t.callers[caller].request].Finished?)
  {
    hide Trim, Obtained;
    InitValid(true, nowMs);
    RunValid(Init(true, nowMs), steps);
    CacheIsLastIssued(true, nowMs, steps);
  }

  /**
   * So a token that was obtained serves every later caller while it lasts: no
   * answer with another token in between, and no further request is made.
   */
  lemma ObtainedTokenServes(nowMs: int, before: seq<Step>, request: nat, text: string, expiresAtMs: int,
                            between: seq<Step>, caller: nat)
    requires Trim(text) != ""
    requires var steps := before + [Settle(request, Body(text, Some(expiresAtMs)))] + between;
             IsRun(Init(true, nowMs), steps) && caller !in After(Init(true, nowMs), steps).callers
             && expiresAtMs - 60 * 1000 > Clock(nowMs, steps)
    requires forall k :: 0 <= k < |between| ==> !Issues(between[k])
    ensures var steps := before + [Settle(request, Body(text, Some(expiresAtMs)))] + between;
            var s := After(Init(true, nowMs), steps);
            var t := Next(s, Call(caller));
            && t.callers[caller] == FromCache(CachedToken(Trim(text), expiresAtMs), Clock(nowMs, steps))
            && t.requests == s.requests && t.started == s.started
  {
    hide Trim, Obtained, IsRun, After, Clock, Enabled, Next;
    var issue := Settle(request, Body(text, Some(expiresAtMs)));
    LastIssuedStands(nowMs, before, issue, between);
    CallServesOrStarts(nowMs, before + [issue] + between, caller);
  }

  lemma {:induction false} LastIssuedStands(nowMs: int, before: seq<Step>, issue: Step, between: seq<Step>)
    requires Issues(issue) && issue.response.statedExpiryMs.Some?
    requires forall k :: 0 <= k < |between| ==> !Issues(between[k])
    ensures LastIssued(nowMs, before + [issue] + between)
         == Some(CachedToken(Trim(issue.response.text), issue.response.statedExpiryMs.value))
    decreases |between|
  {
    hide Trim;
    var steps := before + [issue] + between;
    if between == [] {
      assert steps[..|steps| - 1] == before;
    } else {
      var init := between[..|between| - 1];
      LastIssuedStands(nowMs, before, issue, init);
      assert steps[..|steps| - 1] == before + [issue] + init;
    }
  }

  /** Off the platform nothing is ever requested or cached, and every caller is told so. */
  lemma {:induction false} OffPlatformIsQuiet(nowMs: int, steps: seq<Step>)
    requires IsRun(Init(false, nowMs), steps)
    ensures var s := After(Init(false, nowMs), steps);
            s.requests == map[] && s.cachedToken == None && forall c | c in s.callers :: s.callers[c] == OffPlatform
    decreases |steps|
  {
    hide Trim;
    if steps != [] {
      var before, last := steps[..|steps| - 1], steps[|steps| - 1];
      assert steps == before + [last];
      AfterSnoc(Init(false, nowMs), before, last);
      CacheIsLastIssued(false, nowMs, before);
      OffPlatformIsQuiet(nowMs, before);
    }
  }

  // ---------------------------------------------------------------- nothing sticks

  function Waiting(s: State): set<nat> {
    set c | c in s.callers && s.callers[c].Awaiting?
  }

  /** What the event loop still owes: two steps for a pending request, one for a settled one, one per waiting caller. */
  function Owed(s: State): nat
    requires Valid(s)
  {
    |Waiting(s)| + if s.inflightToken.None? then 0 else if s.requests[s.inflightToken.value].Pending? then 2 else 1
  }

  /** The steps that are the runtime's own rather than a new caller's. */
  predicate Internal(step: Step) {
    step.Settle? || step.Finally? || step.Resume?
  }

  /** Every one of them is progress. */
  lemma InternalStepsProgress(s: State, step: Step)
    requires Valid(s) && Enabled(s, step) && Internal(step)
    ensures Valid(Next(s, step)) && Owed(Next(s, step)) < Owed(s)
  {
    StepValid(s, step);
    var t := Next(s, step);
    if step.Resume? {
      assert Waiting(t) == Waiting(s) - {step.caller};
    } else {
      assert Waiting(t) == Waiting(s);
    }
  }

  /** While anything is owed, one of them can be taken, whatever the metadata server answers. */
  lemma SomethingCanHappen(s: State, response: Response) returns (step: Step)
    requires Valid(s) && Owed(s) > 0
    ensures Enabled(s, step) && Internal(step)
  {
    if s.inflightToken.Some? {
      var r := s.inflightToken.value;
      step := if s.requests[r].Pending? then Settle(r, response) else Finally(r);
    } else {
      assert Waiting(s) != {};
      var c :| c in Waiting(s);
      assert ValidCaller(s, s.callers[c]);
      step := Resume(c);
    }
  }

  /**
   * From any reachable point, failures included, the runtime's own steps end
   * with every caller answered and the slot empty.
   */
  lemma {:induction false} AlwaysDrains(s: State, response: Response) returns (steps: seq<Step>)
    requires Valid(s)
    ensures IsRun(s, steps) && (forall k :: 0 <= k < |steps| ==> Internal(steps[k]))
    ensures |steps| <= Owed(s)
    ensures After(s, steps).inflightToken.None? && Waiting(After(s, steps)) == {}
    decreases Owed(s)
  {
    if Owed(s) == 0 {
      steps := [];
    } else {
      var step := SomethingCanHappen(s, response);
      InternalStepsProgress(s, step);
      var rest := AlwaysDrains(Next(s, step), response);
      steps := [step] + rest;
      assert steps[1..] == rest;
    }
  }

  /** With the slot empty and no fresh token, the next caller starts a new request and waits for that one. */
  lemma EmptySlotStartsAfresh(s: State, caller: nat)
    requires Valid(s) && s.onPlatform && s.inflightToken.None? && !Fresh(s.cachedToken, s.nowMs) && caller !in s.callers
    ensures StartsAfresh(s, caller)
  {
  }

  /** The caller's request is a new one, the only one pending, and what that caller waits for. */
  ghost predicate StartsAfresh(s: State, caller: nat)
    requires Enabled(s, Call(caller))
  {
    var t := Next(s, Call(caller));
    && s.started !in s.requests && t.requests == s.requests[s.started := Pending]
    && t.inflightToken == Some(s.started) && t.callers[caller] == Awaiting(s.started)
    && forall r | r in s.requests :: s.requests[r].Finished?
  }

  /**
   * Nothing stays stuck, a failure least of all: from any reachable point the
   * runtime's own steps lead to one where a new caller that finds no fresh
   * token starts a request of its own.
   */
  lemma NeverStuck(onPlatform: bool, nowMs: int, run: seq<Step>, response: Response, caller: nat)
    returns (steps: seq<Step>)
    requires onPlatform && IsRun(Init(onPlatform, nowMs), run)
    requires caller !in After(Init(onPlatform, nowMs), run).callers
    ensures var s := After(Init(onPlatform, nowMs), run);
            && IsRun(s, steps) && (forall k :: 0 <= k < |steps| ==> Internal(steps[k]))
            && caller !in After(s, steps).callers
            && (Fresh(After(s, steps).cachedToken, After(s, steps).nowMs) || StartsAfresh(After(s, steps), caller))
  {
    InitValid(onPlatform, nowMs);
    RunValid(Init(onPlatform, nowMs), run);
    var s := After(Init(onPlatform, nowMs), run);
    steps := AlwaysDrains(s, response);
    RunValid(s, steps);
    InternalKeepsCallers(s, steps);
    var t := After(s, steps);
    if !Fresh(t.cachedToken, t.nowMs) { EmptySlotStartsAfresh(t, caller); }
  }

  lemma {:induction false} InternalKeepsCallers(s: State, steps: seq<Step>)
    requires IsRun(s, steps) && forall k :: 0 <= k < |steps| ==> Internal(steps[k])
    ensures After(s, steps).callers.Keys == s.callers.Keys
    decreases |steps|
  {
    hide OutcomeOf;
    if steps != [] {
      assert Internal(steps[0]);
      InternalKeepsCallers(Next(s, steps[0]), steps[1..]);
    }
  }

  // ---------------------------------------------------------------- what joiners get

  /** What the answer is worth when it is handed over: a token, with more than the margin left. */
  predicate KeepsTheMargin(outcome: Outcome, atMs: int) {
    outcome.Issued? && outcome.cached.expiresAtMs - TOKEN_EXPIRY_MARGIN_MS > atMs
  }

  /**
   * A caller that joined a request, before it settled or after, is answered
   * with what the request obtained, and that keeps the margin exactly when it
   * is a token whose expiry, stated or assumed when the response came, is still
   * that far off when the caller resumes. Nothing in the code checks it.
   */
  lemma JoinersTokenKeepsTheMarginIff(onPlatform: bool, nowMs: int, before: seq<Step>, request: nat, response: Response,
                                      between: seq<Step>, caller: nat)
    requires IsRun(Init(onPlatform, nowMs), before)
    requires Enabled(After(Init(onPlatform, nowMs), before), Settle(request, response))
    requires IsRun(Next(After(Init(onPlatform, nowMs), before), Settle(request, response)), between)
    requires var t := After(Next(After(Init(onPlatform, nowMs), before), Settle(request, response)), between);
             Enabled(t, Resume(caller)) && t.callers[caller].request == request
    ensures var settledMs := After(Init(onPlatform, nowMs), before).nowMs;
            var t := After(Next(After(Init(onPlatform, nowMs), before), Settle(request, response)), between);
            var answer := Next(t, Resume(caller)).callers[caller];
            var assumedMs := settledMs + TOKEN_FALLBACK_TTL_MS;
            && answer == Answered(request, OutcomeOf(response, settledMs), t.nowMs)
            && (answer.outcome.Issued? <==> response.Body? && Trim(response.text) != "")
            && (KeepsTheMargin(answer.outcome, answer.atMs)
                <==> response.Body? && Trim(response.text) != ""
                     && response.statedExpiryMs.GetOr(assumedMs) - TOKEN_EXPIRY_MARGIN_MS > t.nowMs)
  {
    hide Trim;
    InitValid(onPlatform, nowMs);
    RunValid(Init(onPlatform, nowMs), before);
    var s := After(Init(onPlatform, nowMs), before);
    StepValid(s, Settle(request, response));
    RunValid(Next(s, Settle(request, response)), between);
  }

  /** A run in which it does not: the token obtained at 0 is stated to expire at 1. */
  lemma JoinersMayGetAShortToken(token: string)
    requires token != "" && Trim(token) == token
    ensures var steps := [Call(0), Settle(0, Body(token, Some(1))), Finally(0), Resume(0)];
            && IsRun(Init(true, 0), steps)
            && 0 in After(Init(true, 0), steps).callers
            && After(Init(true, 0), steps).callers[0] == Answered(0, Issued(CachedToken(token, 1)), 0)
            && !KeepsTheMargin(Issued(CachedToken(token, 1)), 0)
  {
    var s0 := Init(true, 0);
    var s1 := Next(s0, Call(0));
    var s2 := Next(s1, Settle(0, Body(token, Some(1))));
    var s3 := Next(s2, Finally(0));
    var s4 := Next(s3, Resume(0));
    RunCons(s3, Resume(0), []);
    RunCons(s2, Finally(0), [Resume(0)]);
    RunCons(s1, Settle(0, Body(token, Some(1))), [Finally(0), Resume(0)]);
    RunCons(s0, Call(0), [Settle(0, Body(token, Some(1))), Finally(0), Resume(0)]);
    assert [Finally(0)] + [Resume(0)] == [Finally(0), Resume(0)];
    assert [Settle(0, Body(token, Some(1)))] + [Finally(0), Resume(0)]
      == [Settle(0, Body(token, Some(1))), Finally(0), Resume(0)];
    assert [Call(0)] + [Settle(0, Body(token, Some(1))), Finally(0), Resume(0)]
        == [Call(0), Settle(0, Body(token, Some(1))), Finally(0), Resume(0)];
    assert [Resume(0)] + [] == [Resume(0)];
    assert s1.requests == map[0 := Pending];
    assert s2.requests == map[0 := Settled(Issued(CachedToken(token, 1)))];
    assert s3.requests == map[0 := Finished(Issued(CachedToken(token, 1)))];
  }

  lemma RunCons(s: State, step: Step, rest: seq<Step>)
    requires Enabled(s, step) && IsRun(Next(s, step), rest)
    ensures IsRun(s, [step] + rest) && After(s, [step] + rest) == After(Next(s, step), rest)
  {
    assert ([step] + rest)[1..] == rest;
  }
}
