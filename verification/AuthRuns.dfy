/** Runs of the token refresh protocol: when a logout or a login lasts, what one call of `getValidTokens` goes through,
    and how often `onTokenExpired` is called. */
module AuthRuns {
  import opened AuthProtocol
  import opened Options

  lemma RunStep(s: State, events: seq<Event>, e: Event)
    ensures RunFrom(s, events + [e]) == Step(RunFrom(s, events), e)
  {
    assert (events + [e])[..|events|] == events;
  }

  lemma AfterStep(stored: Option<AuthTokens>, events: seq<Event>, e: Event)
    ensures After(stored, events + [e]) == Step(After(stored, events), e)
  {
    hide Step;
    RunStep(Start(stored), events, e);
  }

  lemma {:induction false} RunKeepsSingleFlight(s: State, events: seq<Event>)
    requires SingleFlight(s)
    ensures SingleFlight(RunFrom(s, events))
  {
    if events != [] {
      RunKeepsSingleFlight(s, events[..|events| - 1]);
      StepKeepsSingleFlight(RunFrom(s, events[..|events| - 1]), events[|events| - 1]);
    }
  }

  // ----- when a logout lasts -----

  /** What the flight in the slot will leave in the storage; nothing is known while it is pending. */
  ghost predicate WillLeave(s: State, stored: Option<AuthTokens>) {
    s.refreshPromise.Some? ==>
      && s.refreshPromise.value < |s.flights|
      && !s.flights[s.refreshPromise.value].Pending?
      && StorageAfter(s.flights[s.refreshPromise.value]) == stored
  }

  lemma StepKeepsLoggedOut(s: State, e: Event)
    requires SingleFlight(s) && s.storage.None? && WillLeave(s, None) && !e.LoginDone?
    ensures Step(s, e).storage.None? && WillLeave(Step(s, e), None)
  {
  }

  lemma {:induction false} LoggedOutStays(s: State, events: seq<Event>)
    requires SingleFlight(s) && s.storage.None? && WillLeave(s, None)
    requires forall e <- events :: !e.LoginDone?
    ensures RunFrom(s, events).storage.None? && WillLeave(RunFrom(s, events), None)
  {
    hide SingleFlight, WillLeave;
    if events != [] {
      var (front, last) := (events[..|events| - 1], events[|events| - 1]);
      assert last in events;
      LoggedOutStays(s, front);
      RunKeepsSingleFlight(s, front);
      StepKeepsLoggedOut(RunFrom(s, front), last);
    }
  }

  /** The flight in the slot settles with `tokens`, if it has not settled yet, and its owner resumes. */
  lemma FlightEnds(s: State, tokens: AuthTokens) returns (events: seq<Event>)
    requires SingleFlight(s) && s.refreshPromise.Some?
    ensures forall e <- events :: e.ServerAnswers? || e.OwnerResumes?
    ensures var f, s' := s.refreshPromise.value, RunFrom(s, events);
      && |s'.flights| == |s.flights|
      && s'.storage == StorageAfter(if s.flights[f].Pending? then Resolved(tokens) else s.flights[f])
  {
    var f := s.refreshPromise.value;
    var c: nat :| c < |s.callers| && IsOwner(s, c, f);
    var answer, resume := ServerAnswers(f, Resolved(tokens)), OwnerResumes(c);
    assert RunFrom(s, []) == s;
    if s.flights[f].Pending? {
      events := [] + [answer] + [resume];
      RunStep(s, [], answer);
      RunStep(s, [] + [answer], resume);
    } else {
      events := [] + [resume];
      RunStep(s, [], resume);
    }
  }

  /** A logout lasts until the next login, whatever else happens, exactly when no refresh is under way, or one that
      failed already: only then the owner that resumes later has nothing to store. */
  lemma LogoutLastsIff(s: State)
    requires SingleFlight(s)
    ensures (forall events: seq<Event> | forall e <- events :: !e.LoginDone? ::
               RunFrom(Step(s, Clear), events).storage.None?) <==>
            (s.refreshPromise.Some? ==> s.flights[s.refreshPromise.value].Rejected?)
  {
    var s1 := Step(s, Clear);
    StepKeepsSingleFlight(s, Clear);
    if s.refreshPromise.Some? ==> s.flights[s.refreshPromise.value].Rejected? {
      forall events: seq<Event> | forall e <- events :: !e.LoginDone?
        ensures RunFrom(s1, events).storage.None?
      {
        LoggedOutStays(s1, events);
      }
    } else {
      var events := FlightEnds(s1, AuthTokens("", ""));
      assert RunFrom(s1, events).storage.Some?;
    }
  }

  // ----- when a login lasts -----

  /** Between the login and the next login or logout. */
  predicate Undisturbed(events: seq<Event>) {
    forall e <- events :: !e.LoginDone? && !e.Clear?
  }

  lemma StepKeepsLogin(s: State, e: Event, tokens: AuthTokens)
    requires SingleFlight(s) && s.storage == Some(tokens) && WillLeave(s, Some(tokens))
    requires !e.LoginDone? && !e.Clear? && |Step(s, e).flights| == |s.flights|
    ensures Step(s, e).storage == Some(tokens) && WillLeave(Step(s, e), Some(tokens))
  {
  }

  lemma FlightsGrow(s: State, e: Event)
    ensures |Step(s, e).flights| >= |s.flights|
  {
  }

  lemma {:induction false} LoginStays(s: State, events: seq<Event>, tokens: AuthTokens)
    requires SingleFlight(s) && s.storage == Some(tokens) && WillLeave(s, Some(tokens)) && Undisturbed(events)
    ensures var s' := RunFrom(s, events);
      && |s'.flights| >= |s.flights|
      && (|s'.flights| == |s.flights| ==> s'.storage == Some(tokens) && WillLeave(s', Some(tokens)))
  {
    hide SingleFlight, WillLeave;
    if events != [] {
      var (front, last) := (events[..|events| - 1], events[|events| - 1]);
      assert last in events;
      LoginStays(s, front, tokens);
      RunKeepsSingleFlight(s, front);
      FlightsGrow(RunFrom(s, front), last);
      if |RunFrom(s, events).flights| == |s.flights| {
        StepKeepsLogin(RunFrom(s, front), last, tokens);
      }
    }
  }

  /** A login's tokens stay until the next login, logout or new refresh, exactly when no refresh is under way, or
      one that brought the same tokens. */
  lemma LoginLastsIff(s: State, tokens: AuthTokens)
    requires SingleFlight(s)
    ensures (forall events: seq<Event> |
               Undisturbed(events) && |RunFrom(Step(s, LoginDone(tokens)), events).flights| == |s.flights| ::
               RunFrom(Step(s, LoginDone(tokens)), events).storage == Some(tokens)) <==>
            (s.refreshPromise.Some? ==> s.flights[s.refreshPromise.value] == Resolved(tokens))
  {
    var s1 := Step(s, LoginDone(tokens));
    StepKeepsSingleFlight(s, LoginDone(tokens));
    if s.refreshPromise.Some? ==> s.flights[s.refreshPromise.value] == Resolved(tokens) {
      forall events: seq<Event> | Undisturbed(events) && |RunFrom(s1, events).flights| == |s.flights|
        ensures RunFrom(s1, events).storage == Some(tokens)
      {
        LoginStays(s1, events, tokens);
      }
    } else {
      var events := FlightEnds(s1, AuthTokens(tokens.access + ".", tokens.refresh));
      assert |tokens.access + "."| != |tokens.access|;
      assert RunFrom(s1, events).storage != Some(tokens);
    }
  }

  // ----- what one call goes through -----

  /** The outcomes that caller `c` got, in order. */
  function Deliveries(log: seq<LogEntry>, c: nat): (d: seq<LogEntry>)
    ensures forall entry <- d :: entry.Delivered? && entry.caller == c && entry in log
  {
    if log == [] then []
    else
      var last := log[|log| - 1];
      Deliveries(log[..|log| - 1], c) + if last.Delivered? && last.caller == c then [last] else []
  }

  predicate FailedFirst(d: seq<LogEntry>) {
    |d| == 1 && d[0].Delivered? && d[0].outcome.Rejected? && !d[0].lastTry
  }

  /** `d` ends with the outcome that made the caller `caller`. */
  predicate EndsAs(d: seq<LogEntry>, caller: Caller) {
    && (|d| == 1 || (|d| == 2 && FailedFirst(d[..1]) && d[1].Delivered? && d[1].lastTry))
    && var last := d[|d| - 1];
       && last.Delivered? && !last.outcome.Pending? && Resumed(last.outcome, last.lastTry) == caller
  }

  /** What was stored when each call was made, in a run from `s`. */
  function StoredAtCalls(s: State, events: seq<Event>): seq<Option<AuthTokens>> {
    if events == [] then []
    else
      var (front, last) := (events[..|events| - 1], events[|events| - 1]);
      StoredAtCalls(s, front) + if last.Call? then [RunFrom(s, front).storage] else []
  }

  /** What the caller's state says about the outcomes `d` that it got, and about what was stored when it called: who got
      none was told the stored tokens, or that there are none, or still waits. */
  predicate Story(caller: Caller, d: seq<LogEntry>, atCall: Option<AuthTokens>) {
    match caller
    case Waiting(_, _, lastTry) => atCall.Some? && (d == [] || (lastTry && FailedFirst(d)))
    case Retrying => atCall.Some? && FailedFirst(d)
    case Returned(tokens) => if d == [] then atCall == Some(tokens) else atCall.Some? && EndsAs(d, caller)
    case Failed(error) =>
      if d == [] then error.NotAuthenticated? && atCall.None? else atCall.Some? && EndsAs(d, caller)
  }

  ghost predicate Stories(s: State, calls: seq<Option<AuthTokens>>) {
    && |calls| == |s.callers|
    && (forall c :: 0 <= c < |s.callers| ==> Story(s.callers[c], Deliveries(s.log, c), calls[c]))
    && (forall c: nat :: c >= |s.callers| ==> Deliveries(s.log, c) == [])
  }

  lemma DeliveriesAppend(log: seq<LogEntry>, entry: LogEntry, c: nat)
    ensures Deliveries(log + [entry], c) ==
            Deliveries(log, c) + if entry.Delivered? && entry.caller == c then [entry] else []
  {
    assert (log + [entry])[..|log|] == log;
  }

  lemma ResumedStory(caller: Caller, d: seq<LogEntry>, delivered: LogEntry, atCall: Option<AuthTokens>)
    requires caller.Waiting? && Story(caller, d, atCall)
    requires delivered.Delivered? && delivered.lastTry == caller.lastTry && !delivered.outcome.Pending?
    ensures Story(Resumed(delivered.outcome, caller.lastTry), d + [delivered], atCall)
  {
    assert |d| == 1 ==> (d + [delivered])[..1] == d;
  }

  lemma ResumeKeepsStories(s: State, e: Event, calls: seq<Option<AuthTokens>>)
    requires Stories(s, calls) && Enabled(s, e) && (e.OwnerResumes? || e.FollowerResumes?)
    ensures Stories(Step(s, e), calls)
  {
    hide Deliveries, Story;
    var s', f, lastTry := Step(s, e), s.callers[e.caller].flight, s.callers[e.caller].lastTry;
    var delivered := Delivered(e.caller, f, s.flights[f], lastTry);
    var released := Released(f, s.flights[f], StorageAfter(s.flights[f]));
    var log := if e.OwnerResumes? then s.log + [released] else s.log;
    assert s'.log == log + [delivered];
    assert s'.callers == s.callers[e.caller := Resumed(s.flights[f], lastTry)];
    forall c: nat
      ensures Deliveries(s'.log, c) ==
              if c == e.caller then Deliveries(s.log, c) + [delivered] else Deliveries(s.log, c)
    {
      DeliveriesAppend(s.log, released, c);
      DeliveriesAppend(log, delivered, c);
    }
    ResumedStory(s.callers[e.caller], Deliveries(s.log, e.caller), delivered, calls[e.caller]);
  }

  lemma StepKeepsStories(s: State, e: Event, calls: seq<Option<AuthTokens>>)
    requires Stories(s, calls)
    ensures Stories(Step(s, e), calls + if e.Call? then [s.storage] else [])
  {
    hide Deliveries, FailedFirst, EndsAs, Resumed, RefreshTokenOf;
    if Enabled(s, e) && (e.OwnerResumes? || e.FollowerResumes?) {
      ResumeKeepsStories(s, e, calls);
    }
    assert !e.Call? ==> calls + [] == calls;
  }

  lemma {:induction false} EveryRunKeepsStories(stored: Option<AuthTokens>, events: seq<Event>)
    ensures Stories(After(stored, events), StoredAtCalls(Start(stored), events))
  {
    hide Stories, Step;
    if events == [] {
      NoStories(stored);
    } else {
      var (front, last) := (events[..|events| - 1], events[|events| - 1]);
      EveryRunKeepsStories(stored, front);
      StepKeepsStories(After(stored, front), last, StoredAtCalls(Start(stored), front));
    }
  }

  lemma NoStories(stored: Option<AuthTokens>)
    ensures Stories(Start(stored), [])
  {
  }

  /** A call gets at most two outcomes, a second one only after a failure that was not its last try, and then no
      further one; a failure is its end exactly when it is its last try. Who ends without an outcome gets the tokens
      that were stored at the call, and an error exactly when none were. */
  lemma FailureEndsLastTry(stored: Option<AuthTokens>, events: seq<Event>, c: nat)
    requires c < |After(stored, events).callers|
    ensures |StoredAtCalls(Start(stored), events)| == |After(stored, events).callers|
    ensures var s, atCall := After(stored, events), StoredAtCalls(Start(stored), events)[c];
      var d := Deliveries(s.log, c);
      && |d| <= 2
      && (|d| == 2 ==> d[0].outcome.Rejected? && !d[0].lastTry && d[1].lastTry)
      && (forall i :: 0 <= i < |d| && d[i].outcome.Rejected? ==>
            (d[i].lastTry <==> i == |d| - 1 && s.callers[c] == Failed(d[i].outcome.error)))
      && (forall i :: 0 <= i < |d| && d[i].outcome.Resolved? ==>
            i == |d| - 1 && s.callers[c] == Returned(d[i].outcome.tokens))
      && (d == [] && s.callers[c].Returned? ==> atCall == Some(s.callers[c].tokens))
      && (d == [] && s.callers[c].Failed? ==> s.callers[c].error.NotAuthenticated?)
      && (atCall.None? <==> d == [] && s.callers[c].Failed?)
  {
    hide Deliveries, After, StoredAtCalls, Story;
    EveryRunKeepsStories(stored, events);
    var s := After(stored, events);
    StoryEnds(s.callers[c], Deliveries(s.log, c), StoredAtCalls(Start(stored), events)[c]);
  }

  lemma StoryEnds(caller: Caller, d: seq<LogEntry>, atCall: Option<AuthTokens>)
    requires Story(caller, d, atCall) && forall entry <- d :: entry.Delivered?
    ensures |d| <= 2
    ensures |d| == 2 ==> d[0].outcome.Rejected? && !d[0].lastTry && d[1].lastTry
    ensures forall i :: 0 <= i < |d| && d[i].outcome.Rejected? ==>
      (d[i].lastTry <==> i == |d| - 1 && caller == Failed(d[i].outcome.error))
    ensures forall i :: 0 <= i < |d| && d[i].outcome.Resolved? ==>
      i == |d| - 1 && caller == Returned(d[i].outcome.tokens)
    ensures d == [] && caller.Returned? ==> atCall == Some(caller.tokens)
    ensures d == [] && caller.Failed? ==> caller.error.NotAuthenticated?
    ensures atCall.None? <==> d == [] && caller.Failed?
  {
  }

  /** What a call does at once: without tokens it fails; fresh ones it returns, and nothing else changes; else it waits,
      for the flight under way or for a new one, to which it sends the stored refresh token, if there is one; and it
      will not try again if its token could not be decoded. */
  lemma CallAnswers(stored: Option<AuthTokens>, events: seq<Event>, freshness: Freshness)
    ensures var s, s' := After(stored, events), After(stored, events + [Call(freshness)]);
      && |s'.callers| == |s.callers| + 1 && s'.callers[..|s.callers|] == s.callers
      && s'.storage == s.storage && s'.log == s.log && s'.expiredCalls == s.expiredCalls && s'.issued == s.issued
      && var caller := s'.callers[|s.callers|];
         match s.storage
         case None =>
           caller == Failed(NotAuthenticated) && s' == s.(callers := s'.callers)
         case Some(tokens) =>
           if freshness.Fresh? then caller == Returned(tokens) && s' == s.(callers := s'.callers)
           else
             && caller.Waiting? && caller.lastTry == freshness.Undecodable?
             && s'.refreshPromise == Some(caller.flight) && caller.flight < |s'.flights|
             && (s.refreshPromise.Some? ==> !caller.owner && s' == s.(callers := s'.callers))
             && (s.refreshPromise.None? ==>
                   && caller.owner && caller.flight == |s.flights| && s'.flights[..|s.flights|] == s.flights
                   && if tokens.refresh == "" then
                        s'.sent == s.sent && s'.flights[caller.flight] == Rejected(NoRefreshToken)
                      else s'.sent == s.sent + multiset{tokens.refresh} && s'.flights[caller.flight].Pending?)
  {
    AfterStep(stored, events, Call(freshness));
    EveryRunKeeps(stored, events);
    var s := After(stored, events);
    assert s.storage.Some? && s.storage.value.refresh != "" ==>
      RefreshTokenOf(s.storage)[s.storage.value.refresh] == 1;
  }

  // ----- how often the callback runs -----

  /** The flight found no refresh token; or the server failed it. */
  predicate IsFailure(flight: Outcome, tokenless: bool) {
    flight.Rejected? && if tokenless then flight.error.NoRefreshToken? else flight.error.RequestFailed?
  }

  /** How many flights outside the slot failed in this way. */
  function FailedFlights(flights: seq<Outcome>, slot: Option<nat>, tokenless: bool): nat {
    if flights == [] then 0
    else
      var n := |flights| - 1;
      FailedFlights(flights[..n], slot, tokenless) +
      if IsFailure(flights[n], tokenless) && slot != Some(n) then 1 else 0
  }

  lemma {:induction false} FailedAnswered(flights: seq<Outcome>, f: nat, outcome: Outcome, tokenless: bool)
    requires f < |flights|
    ensures FailedFlights(flights[f := outcome], Some(f), tokenless) == FailedFlights(flights, Some(f), tokenless)
  {
    var n := |flights| - 1;
    if f < n {
      FailedAnswered(flights[..n], f, outcome, tokenless);
      assert flights[f := outcome][..n] == flights[..n][f := outcome];
    } else {
      assert flights[f := outcome][..n] == flights[..n];
    }
  }

  lemma {:induction false} FailedFreed(flights: seq<Outcome>, f: nat, tokenless: bool)
    ensures FailedFlights(flights, None, tokenless) ==
            FailedFlights(flights, Some(f), tokenless) +
            if f < |flights| && IsFailure(flights[f], tokenless) then 1 else 0
  {
    if flights != [] {
      FailedFreed(flights[..|flights| - 1], f, tokenless);
    }
  }

  lemma FailedAppend(flights: seq<Outcome>, flight: Outcome, tokenless: bool)
    ensures FailedFlights(flights + [flight], Some(|flights|), tokenless) == FailedFlights(flights, None, tokenless)
    ensures FailedFlights(flights + [flight], None, tokenless) ==
            FailedFlights(flights, None, tokenless) +
            if IsFailure(flight, tokenless) then 1 else 0
  {
    assert (flights + [flight])[..|flights|] == flights;
    FailedFreed(flights, |flights|, tokenless);
  }

  /** How many calls, in a run from `s`, found a refresh to start and no refresh token to start it with. */
  function EmptyCalls(s: State, events: seq<Event>): nat {
    if events == [] then 0
    else
      var (front, last) := (events[..|events| - 1], events[|events| - 1]);
      var before := RunFrom(s, front);
      EmptyCalls(s, front) +
      if && last.Call? && !last.freshness.Fresh? && before.refreshPromise.None?
         && before.storage.Some? && before.storage.value.refresh == ""
      then 1 else 0
  }

  /** How many callers, in a run from `s`, refreshed again. */
  function Retries(s: State, events: seq<Event>): nat {
    if events == [] then 0
    else
      var (front, last) := (events[..|events| - 1], events[|events| - 1]);
      Retries(s, front) + if last.Retry? && Enabled(RunFrom(s, front), last) then 1 else 0
  }

  ghost predicate Counted(s: State, tokenlessStarts: nat) {
    && s.expiredCalls == FailedFlights(s.flights, s.refreshPromise, false) +
                         FailedFlights(s.flights, s.refreshPromise, true)
    && FailedFlights(s.flights, None, true) <= tokenlessStarts
  }

  /** There is no third way to fail. */
  ghost predicate TwoFailures(s: State) {
    forall f :: 0 <= f < |s.flights| && s.flights[f].Rejected? ==>
      IsFailure(s.flights[f], true) || IsFailure(s.flights[f], false)
  }

  lemma StepKeepsTwoFailures(s: State, e: Event)
    requires TwoFailures(s)
    ensures TwoFailures(Step(s, e))
  {
  }

  lemma OneStarts(s: State, e: Event)
    ensures RunFrom(s, [e]) == Step(s, e)
    ensures EmptyCalls(s, [e]) ==
            if && e.Call? && !e.freshness.Fresh? && s.refreshPromise.None?
               && s.storage.Some? && s.storage.value.refresh == "" then 1 else 0
    ensures Retries(s, [e]) == if e.Retry? && Enabled(s, e) then 1 else 0
  {
    hide Step, Enabled;
    assert [e][..0] == [] && RunFrom(s, []) == s;
  }

  /** A refresh that starts is not counted as failed yet; but if it finds no refresh token it will be. */
  lemma RefreshKeepsCounted(s: State, c: nat, lastTry: bool, n: nat)
    requires Counted(s, n) && c < |s.callers|
    ensures Counted(Refresh(s, c, lastTry),
                    n + if s.refreshPromise.None? && RefreshTokenOf(s.storage) == multiset{} then 1 else 0)
  {
    hide FailedFlights;
    RefreshCounts(s);
  }

  lemma ResumeKeepsCounted(s: State, c: nat, n: nat)
    requires SingleFlight(s) && Counted(s, n) && TwoFailures(s) && Enabled(s, OwnerResumes(c))
    ensures Counted(Step(s, OwnerResumes(c)), n)
  {
    hide FailedFlights;
    FailedFreed(s.flights, s.callers[c].flight, false);
    FailedFreed(s.flights, s.callers[c].flight, true);
  }

  lemma StepKeepsCounted(s: State, e: Event, n: nat)
    requires SingleFlight(s) && Counted(s, n) && TwoFailures(s)
    ensures Counted(Step(s, e), n + EmptyCalls(s, [e]) + Retries(s, [e]))
  {
    hide FailedFlights, RunFrom, EmptyCalls, Retries, TwoFailures, Refresh;
    OneStarts(s, e);
    if Enabled(s, e) {
      match e
      case Call(freshness) =>
        RefreshKeepsCounted(s.(callers := s.callers + [Retrying]), |s.callers|, freshness.Undecodable?, n);
      case Retry(c) => RefreshKeepsCounted(s, c, true, n);
      case ServerAnswers(f, outcome) => AnswerCounts(s, f, outcome);
      case OwnerResumes(c) => ResumeKeepsCounted(s, c, n);
      case _ =>
    }
  }

  lemma RefreshCounts(s: State)
    ensures forall flight: Outcome, tokenless: bool ::
      FailedFlights(s.flights + [flight], Some(|s.flights|), tokenless) == FailedFlights(s.flights, None, tokenless)
    ensures forall flight: Outcome ::
      FailedFlights(s.flights + [flight], None, true) ==
      FailedFlights(s.flights, None, true) + if IsFailure(flight, true) then 1 else 0
  {
    hide FailedFlights;
    forall flight: Outcome, tokenless: bool {
      FailedAppend(s.flights, flight, tokenless);
    }
  }

  lemma AnswerCounts(s: State, f: nat, outcome: Outcome)
    requires SingleFlight(s) && Enabled(s, ServerAnswers(f, outcome))
    ensures forall tokenless: bool ::
      FailedFlights(s.flights[f := outcome], s.refreshPromise, tokenless) ==
      FailedFlights(s.flights, s.refreshPromise, tokenless)
    ensures FailedFlights(s.flights[f := outcome], None, true) == FailedFlights(s.flights, None, true)
  {
    hide FailedFlights;
    forall tokenless: bool
      ensures FailedFlights(s.flights[f := outcome], s.refreshPromise, tokenless) ==
              FailedFlights(s.flights, s.refreshPromise, tokenless)
    {
      FailedAnswered(s.flights, f, outcome, tokenless);
    }
    FailedFreed(s.flights, f, true);
    FailedFreed(s.flights[f := outcome], f, true);
  }

  lemma {:induction false} RunKeepsCounted(s: State, events: seq<Event>, n: nat)
    requires SingleFlight(s) && Counted(s, n) && TwoFailures(s)
    ensures Counted(RunFrom(s, events), n + EmptyCalls(s, events) + Retries(s, events))
    ensures TwoFailures(RunFrom(s, events))
  {
    hide Counted, SingleFlight, Step, TwoFailures;
    if events != [] {
      var (front, last) := (events[..|events| - 1], events[|events| - 1]);
      var before := RunFrom(s, front);
      RunKeepsCounted(s, front, n);
      RunKeepsSingleFlight(s, front);
      StepKeepsTwoFailures(before, last);
      StepKeepsCounted(before, last, n + EmptyCalls(s, front) + Retries(s, front));
      OneStarts(before, last);
    }
  }

  /** The callback runs once for each refresh that the server failed, and once more for each flight that found no
      refresh token; of these there are at most as many as retries, and calls that found an empty one stored. */
  lemma CallbacksCounted(stored: Option<AuthTokens>, events: seq<Event>)
    ensures var s, start := After(stored, events), Start(stored);
      && s.expiredCalls == FailedFlights(s.flights, s.refreshPromise, false) +
                           FailedFlights(s.flights, s.refreshPromise, true)
      && FailedFlights(s.flights, None, true) <= EmptyCalls(start, events) + Retries(start, events)
  {
    hide RunFrom, EmptyCalls, Retries, FailedFlights;
    StartCounted(stored);
    RunKeepsCounted(Start(stored), events, 0);
  }

  lemma StartCounted(stored: Option<AuthTokens>)
    ensures SingleFlight(Start(stored)) && Counted(Start(stored), 0) && TwoFailures(Start(stored))
  {
  }
}
