/** The token refresh protocol as the event loop runs it: continuations of promises are jobs, which run first in, first
    out (ECMAScript 2023, sections 9.5, 27.2.1.3 and 27.7.5.3), so that not every order of events comes up.

    Whoever started a refresh awaits its promise and resumes when it settles. Whoever joined one returns its promise
    from an async function, which takes a job of its own to subscribe to it. What resumes with a failure that is not
    its last try goes on in the `catch` of `getValidTokens` one job later. */
module EventLoop {
  import opened AuthProtocol
  import opened AuthRuns
  import opened Options

  /** What waits to run for a caller: the subscription to a flight it joined; its resumption, once the flight settled;
      or the retry after the flight failed. `first` is said of a caller that will retry after a failure, `late` of one
      that subscribed when the flight had left the slot already. */
  datatype Job =
    | Subscribes(caller: nat, flight: nat, first: bool)
    | Resumes(caller: nat, flight: nat, owner: bool, first: bool, late: bool)
    | Retries(caller: nat, flight: nat, late: bool)

  /** `reactions` are the jobs that the pending flight will queue when it settles. */
  datatype Loop = Loop(s: State, queue: seq<Job>, reactions: seq<Job>)

  /** Other code and other promises may call, log in or out, and settle a flight at any time. */
  datatype LoopEvent = Outside(e: Event) | NextJob

  predicate IsOutside(e: Event) {
    e.Call? || e.ServerAnswers? || e.LoginDone? || e.Clear?
  }

  predicate IsPending(s: State, f: nat) {
    f < |s.flights| && s.flights[f].Pending?
  }

  /** Caller `c` just ran `refreshTokens`, up to its await or return. */
  function Suspended(l: Loop, c: nat): Loop
    requires c < |l.s.callers|
  {
    match l.s.callers[c]
    case Waiting(f, owner, lastTry) =>
      if !owner then l.(queue := l.queue + [Subscribes(c, f, !lastTry)])
      else if IsPending(l.s, f) then l.(reactions := [Resumes(c, f, true, !lastTry, false)])
      else l.(queue := l.queue + [Resumes(c, f, true, !lastTry, false)])
    case _ => l
  }

  /** What one step of the loop is for the protocol; a subscription is nothing. */
  function EventsOf(l: Loop, e: LoopEvent): seq<Event> {
    match e
    case Outside(outside) => if IsOutside(outside) then [outside] else []
    case NextJob =>
      if l.queue == [] then []
      else
        match l.queue[0]
        case Subscribes(_, _, _) => []
        case Resumes(c, _, owner, _, _) => [if owner then OwnerResumes(c) else FollowerResumes(c)]
        case Retries(c, _, _) => [Retry(c)]
  }

  function LoopStep(l: Loop, e: LoopEvent): Loop {
    match e
    case Outside(outside) =>
      if !IsOutside(outside) || !Enabled(l.s, outside) then l
      else
        var next := l.(s := Step(l.s, outside));
        if outside.Call? then Suspended(next, |l.s.callers|)
        else if outside.ServerAnswers? then next.(queue := l.queue + l.reactions, reactions := [])
        else next
    case NextJob =>
      if l.queue == [] then l
      else
        var rest := l.(queue := l.queue[1..]);
        match l.queue[0]
        case Subscribes(c, f, first) =>
          if IsPending(l.s, f) then rest.(reactions := l.reactions + [Resumes(c, f, false, first, false)])
          else rest.(queue := rest.queue + [Resumes(c, f, false, first, l.s.refreshPromise != Some(f))])
        case Resumes(c, f, owner, first, late) =>
          var s := Step(l.s, if owner then OwnerResumes(c) else FollowerResumes(c));
          rest.(s := s,
                queue := rest.queue + if c < |s.callers| && s.callers[c].Retrying? then [Retries(c, f, late)] else [])
        case Retries(c, _, _) =>
          if c < |l.s.callers| then Suspended(rest.(s := Step(l.s, Retry(c))), c) else rest
  }

  function LoopStart(stored: Option<AuthTokens>): Loop {
    Loop(Start(stored), [], [])
  }

  function LoopFrom(l: Loop, events: seq<LoopEvent>): Loop {
    if events == [] then l else LoopStep(LoopFrom(l, events[..|events| - 1]), events[|events| - 1])
  }

  function LoopAfter(stored: Option<AuthTokens>, events: seq<LoopEvent>): Loop {
    LoopFrom(LoopStart(stored), events)
  }

  /** The run of the protocol that a run of the loop is. */
  function ProtocolEvents(stored: Option<AuthTokens>, events: seq<LoopEvent>): seq<Event> {
    if events == [] then []
    else
      var front := events[..|events| - 1];
      ProtocolEvents(stored, front) + EventsOf(LoopAfter(stored, front), events[|events| - 1])
  }

  lemma OneRun(s: State, events: seq<Event>)
    requires |events| <= 1
    ensures RunFrom(s, events) == if events == [] then s else Step(s, events[0])
  {
    if events != [] {
      assert events[..0] == [] && RunFrom(s, []) == s;
    }
  }

  // ----- no continuation is lost, and none runs too early -----

  /** The job is what its caller waits for. */
  predicate JobFits(s: State, job: Job) {
    && job.caller < |s.callers|
    && job.flight < |s.flights|
    && match job
       case Subscribes(c, f, first) => s.callers[c] == Waiting(f, false, !first)
       case Resumes(c, f, owner, first, late) =>
         s.callers[c] == Waiting(f, owner, !first) && (late ==> s.refreshPromise != Some(f))
       case Retries(c, f, _) => s.callers[c].Retrying? && s.flights[f].Rejected?
  }

  predicate IsReady(s: State, job: Job) {
    JobFits(s, job) && (job.Resumes? ==> !IsPending(s, job.flight))
  }

  predicate IsReaction(s: State, job: Job) {
    && JobFits(s, job)
    && job.Resumes? && !job.late && IsPending(s, job.flight) && s.refreshPromise == Some(job.flight)
  }

  predicate OneEach(jobs: seq<Job>) {
    forall i, j :: 0 <= i < j < |jobs| ==> jobs[i].caller != jobs[j].caller
  }

  ghost predicate HasJob(l: Loop, c: nat) {
    (exists job <- l.queue :: job.caller == c) || (exists job <- l.reactions :: job.caller == c)
  }

  /** Every caller that is not done has exactly one job: one that is ready in the queue, or one that waits for the
      pending flight. */
  ghost predicate Fits(l: Loop) {
    && SingleFlight(l.s)
    && (forall job <- l.queue :: IsReady(l.s, job))
    && (forall job <- l.reactions :: IsReaction(l.s, job))
    && OneEach(l.queue) && OneEach(l.reactions)
    && (forall a <- l.queue, b <- l.reactions :: a.caller != b.caller)
    && (forall c :: 0 <= c < |l.s.callers| && (l.s.callers[c].Waiting? || l.s.callers[c].Retrying?) ==> HasJob(l, c))
  }

  lemma LoopStepIsSteps(l: Loop, e: LoopEvent)
    requires Fits(l)
    ensures |EventsOf(l, e)| <= 1
    ensures LoopStep(l, e).s == if EventsOf(l, e) == [] then l.s else Step(l.s, EventsOf(l, e)[0])
    ensures EventsOf(l, e) != [] && e.NextJob? ==> Enabled(l.s, EventsOf(l, e)[0])
  {
    if e.NextJob? && l.queue != [] {
      assert IsReady(l.s, l.queue[0]);
    }
  }

  /** The state of a caller without a job does not matter to the others' jobs; nor do new flights. */
  lemma StillFits(s: State, s': State, job: Job)
    requires JobFits(s, job)
    requires |s.callers| <= |s'.callers| && s'.callers[job.caller] == s.callers[job.caller]
    requires |s.flights| <= |s'.flights| && s'.flights[job.flight] == s.flights[job.flight]
    requires s'.refreshPromise == s.refreshPromise || s'.refreshPromise.None? ||
             (s.refreshPromise.None? && s'.refreshPromise == Some(|s.flights|))
    ensures JobFits(s', job)
    ensures IsReady(s, job) ==> IsReady(s', job)
    ensures IsReaction(s, job) && s'.refreshPromise == s.refreshPromise ==> IsReaction(s', job)
  {
  }

  /** `l` but for the caller `c`, which has no job, and may wait or retry without one. */
  ghost predicate FitsBut(l: Loop, c: nat) {
    && SingleFlight(l.s)
    && c < |l.s.callers|
    && (forall job <- l.queue :: IsReady(l.s, job) && job.caller != c)
    && (forall job <- l.reactions :: IsReaction(l.s, job) && job.caller != c)
    && OneEach(l.queue) && OneEach(l.reactions)
    && (forall a <- l.queue, b <- l.reactions :: a.caller != b.caller)
    && (forall d :: 0 <= d < |l.s.callers| && d != c && (l.s.callers[d].Waiting? || l.s.callers[d].Retrying?) ==>
          HasJob(l, d))
  }

  lemma Queued(l: Loop, job: Job)
    requires FitsBut(l, job.caller) && IsReady(l.s, job)
    ensures Fits(l.(queue := l.queue + [job]))
  {
    var l' := l.(queue := l.queue + [job]);
    assert job in l'.queue;
    forall d | 0 <= d < |l.s.callers| && (l.s.callers[d].Waiting? || l.s.callers[d].Retrying?)
      ensures HasJob(l', d)
    {
      assert d != job.caller ==> HasJob(l, d);
      if other :| other in l.queue && other.caller == d {
        assert other in l'.queue;
      }
    }
  }

  lemma Registered(l: Loop, job: Job)
    requires FitsBut(l, job.caller) && IsReaction(l.s, job)
    ensures Fits(l.(reactions := l.reactions + [job]))
  {
    var l' := l.(reactions := l.reactions + [job]);
    assert job in l'.reactions;
    forall d | 0 <= d < |l.s.callers| && (l.s.callers[d].Waiting? || l.s.callers[d].Retrying?)
      ensures HasJob(l', d)
    {
      assert d != job.caller ==> HasJob(l, d);
      if other :| other in l.reactions && other.caller == d {
        assert other in l'.reactions;
      }
    }
  }

  lemma Done(l: Loop, c: nat)
    requires FitsBut(l, c) && !l.s.callers[c].Waiting? && !l.s.callers[c].Retrying?
    ensures Fits(l)
  {
  }

  lemma FirstReady(l: Loop)
    requires Fits(l) && l.queue != []
    ensures IsReady(l.s, l.queue[0]) && l.queue[0].caller < |l.s.callers|
  {
    assert l.queue[0] in l.queue;
  }

  lemma Popped(l: Loop)
    requires Fits(l) && l.queue != []
    ensures FitsBut(l.(queue := l.queue[1..]), l.queue[0].caller)
  {
    hide IsReady, IsReaction, SingleFlight;
    var l', c := l.(queue := l.queue[1..]), l.queue[0].caller;
    assert IsReady(l.s, l.queue[0]) && c < |l.s.callers| by {
      FirstReady(l);
    }
    assert l.queue == [l.queue[0]] + l'.queue;
    assert l.queue[0] in l.queue;
    assert forall job <- l'.queue :: job in l.queue;
    forall job <- l'.queue
      ensures job.caller != c
    {
      var i :| 0 <= i < |l'.queue| && l'.queue[i] == job;
      assert l.queue[i + 1] == job;
    }
    forall i, j | 0 <= i < j < |l'.queue|
      ensures l'.queue[i].caller != l'.queue[j].caller
    {
      assert l'.queue[i] == l.queue[i + 1] && l'.queue[j] == l.queue[j + 1];
    }
    hide OneEach;
    forall d | 0 <= d < |l.s.callers| && d != c && (l.s.callers[d].Waiting? || l.s.callers[d].Retrying?)
      ensures HasJob(l', d)
    {
      assert HasJob(l, d);
      if other :| other in l.queue && other.caller == d {
        assert other in l'.queue;
      }
    }
  }

  /** Caller `c` started or joined a refresh: its state was `l0`'s, and it gets its one job. */
  lemma SuspendedFits(l: Loop, c: nat)
    requires FitsBut(l, c) && !l.s.callers[c].Retrying?
    requires l.s.callers[c].Waiting? ==> l.s.callers[c].flight < |l.s.flights|
    requires l.s.callers[c].Waiting? && l.s.callers[c].owner ==> l.reactions == []
    ensures Fits(Suspended(l, c))
  {
    match l.s.callers[c]
    case Waiting(f, owner, lastTry) =>
      if !owner {
        Queued(l, Subscribes(c, f, !lastTry));
      } else if IsPending(l.s, f) {
        Registered(l, Resumes(c, f, true, !lastTry, false));
        assert [] + [Resumes(c, f, true, !lastTry, false)] == [Resumes(c, f, true, !lastTry, false)];
      } else {
        Queued(l, Resumes(c, f, true, !lastTry, false));
      }
    case _ => Done(l, c);
  }

  /** A step that leaves all callers but `c` alone keeps their jobs. */
  lemma OthersFit(l: Loop, s: State, c: nat)
    requires FitsBut(l, c) && SingleFlight(s) && |s.callers| == |l.s.callers|
    requires forall d :: 0 <= d < |s.callers| && d != c ==> s.callers[d] == l.s.callers[d]
    requires |s.flights| >= |l.s.flights| && s.flights[..|l.s.flights|] == l.s.flights
    requires s.refreshPromise == l.s.refreshPromise || (s.refreshPromise.None? && l.reactions == []) ||
             (l.s.refreshPromise.None? && s.refreshPromise == Some(|l.s.flights|))
    ensures FitsBut(l.(s := s), c)
  {
    var l' := l.(s := s);
    forall job <- l.queue
      ensures IsReady(s, job)
    {
      assert IsReady(l.s, job);
      assert s.flights[job.flight] == s.flights[..|l.s.flights|][job.flight];
      StillFits(l.s, s, job);
    }
    forall job <- l.reactions
      ensures IsReaction(s, job)
    {
      assert IsReaction(l.s, job);
      assert s.flights[job.flight] == s.flights[..|l.s.flights|][job.flight];
      StillFits(l.s, s, job);
    }
    forall d | 0 <= d < |s.callers| && d != c && (s.callers[d].Waiting? || s.callers[d].Retrying?)
      ensures HasJob(l', d)
    {
      assert HasJob(l, d);
    }
  }

  lemma NoReactions(l: Loop)
    requires forall job <- l.reactions :: IsReaction(l.s, job)
    requires l.s.refreshPromise.None? || !IsPending(l.s, l.s.refreshPromise.value)
    ensures l.reactions == []
  {
    FirstIn(l.reactions);
  }

  lemma FirstIn(jobs: seq<Job>)
    ensures jobs != [] ==> jobs[0] in jobs
  {
  }

  /** `refreshTokens` in a caller without a job. */
  lemma RefreshFits(l: Loop, c: nat, lastTry: bool)
    requires FitsBut(l, c) && l.s.callers[c].Retrying?
    ensures var s' := Refresh(l.s, c, lastTry);
      c < |s'.callers| && Fits(Suspended(l.(s := s'), c))
  {
    var s' := Refresh(l.s, c, lastTry);
    RefreshKeepsSingleFlight(l.s, c, lastTry);
    OthersFit(l, s', c);
    if l.s.refreshPromise.None? {
      NoReactions(l);
    }
    SuspendedFits(l.(s := s'), c);
  }

  /** A new call. */
  lemma AddedFits(l: Loop, caller: Caller)
    requires Fits(l) && !caller.Waiting?
    ensures FitsBut(l.(s := l.s.(callers := l.s.callers + [caller])), |l.s.callers|)
  {
    var s' := l.s.(callers := l.s.callers + [caller]);
    AddedCallerKeepsSingleFlight(l.s, caller);
    forall job <- l.queue
      ensures IsReady(s', job)
    {
      StillFits(l.s, s', job);
    }
    forall job <- l.reactions
      ensures IsReaction(s', job)
    {
      StillFits(l.s, s', job);
    }
    forall d | 0 <= d < |l.s.callers| && (l.s.callers[d].Waiting? || l.s.callers[d].Retrying?)
      ensures HasJob(l.(s := s'), d)
    {
      assert HasJob(l, d);
    }
  }

  lemma CallFits(l: Loop, freshness: Freshness)
    requires Fits(l)
    ensures Fits(LoopStep(l, Outside(Call(freshness))))
  {
    var c := |l.s.callers|;
    if l.s.storage.Some? && !freshness.Fresh? {
      var s1 := l.s.(callers := l.s.callers + [Retrying]);
      AddedFits(l, Retrying);
      RefreshFits(l.(s := s1), c, freshness.Undecodable?);
    } else {
      var caller := Step(l.s, Call(freshness)).callers[c];
      AddedFits(l, caller);
      Done(l.(s := l.s.(callers := l.s.callers + [caller])), c);
    }
  }

  lemma AnswerFits(l: Loop, f: nat, outcome: Outcome)
    requires Fits(l) && Enabled(l.s, ServerAnswers(f, outcome))
    ensures Fits(LoopStep(l, Outside(ServerAnswers(f, outcome))))
  {
    var e := ServerAnswers(f, outcome);
    var l' := LoopStep(l, Outside(e));
    StepKeepsSingleFlight(l.s, e);
    forall job <- l'.queue
      ensures IsReady(l'.s, job)
    {
      assert job in l.queue || job in l.reactions;
    }
    forall d | 0 <= d < |l.s.callers| && (l.s.callers[d].Waiting? || l.s.callers[d].Retrying?)
      ensures HasJob(l', d)
    {
      assert HasJob(l, d);
      if other :| other in l.queue + l.reactions && other.caller == d {
        assert other in l'.queue;
      }
    }
    forall i, j | 0 <= i < j < |l'.queue|
      ensures l'.queue[i].caller != l'.queue[j].caller
    {
      if i < |l.queue| <= j {
        assert l'.queue[i] in l.queue && l'.queue[j] in l.reactions;
      }
    }
  }

  lemma SubscribeFits(l: Loop)
    requires Fits(l) && l.queue != [] && l.queue[0].Subscribes?
    ensures Fits(LoopStep(l, NextJob))
  {
    var job, rest := l.queue[0], l.(queue := l.queue[1..]);
    Popped(l);
    assert IsReady(l.s, job);
    if IsPending(l.s, job.flight) {
      Registered(rest, Resumes(job.caller, job.flight, false, job.first, false));
    } else {
      Queued(rest, Resumes(job.caller, job.flight, false, job.first, l.s.refreshPromise != Some(job.flight)));
    }
  }

  function ResumeEvent(job: Job): Event
    requires job.Resumes?
  {
    if job.owner then OwnerResumes(job.caller) else FollowerResumes(job.caller)
  }

  /** What a resumption does to the callers, the flights and the slot. */
  lemma ResumedState(s: State, job: Job)
    requires SingleFlight(s) && job.Resumes? && IsReady(s, job)
    ensures Enabled(s, ResumeEvent(job))
    ensures var s' := Step(s, ResumeEvent(job));
      && SingleFlight(s')
      && s'.flights == s.flights
      && s'.callers == s.callers[job.caller := Resumed(s.flights[job.flight], !job.first)]
      && s'.refreshPromise == (if job.owner then None else s.refreshPromise)
      && (job.owner ==> s.refreshPromise == Some(job.flight))
      && s'.storage == (if job.owner then StorageAfter(s.flights[job.flight]) else s.storage)
      && s'.expiredCalls == s.expiredCalls + if job.owner && s.flights[job.flight].Rejected? then 1 else 0
  {
    StepKeepsSingleFlight(s, ResumeEvent(job));
  }

  lemma ResumeFits(l: Loop)
    requires Fits(l) && l.queue != [] && l.queue[0].Resumes?
    ensures Fits(LoopStep(l, NextJob))
  {
    hide SingleFlight, Step;
    var job, rest := l.queue[0], l.(queue := l.queue[1..]);
    Popped(l);
    assert IsReady(l.s, job);
    ResumedState(l.s, job);
    var s' := Step(l.s, ResumeEvent(job));
    if job.owner {
      NoReactions(l);
    }
    OthersFit(rest, s', job.caller);
    if s'.callers[job.caller].Retrying? {
      Queued(rest.(s := s'), Retries(job.caller, job.flight, job.late));
    } else {
      Done(rest.(s := s'), job.caller);
      assert rest.queue + [] == rest.queue;
    }
  }

  lemma RetryIsRefresh(s: State, c: nat)
    requires c < |s.callers| && s.callers[c].Retrying?
    ensures Step(s, Retry(c)) == Refresh(s, c, true)
  {
  }

  lemma RetryFits(l: Loop)
    requires Fits(l) && l.queue != [] && l.queue[0].Retries?
    ensures Fits(LoopStep(l, NextJob))
  {
    Popped(l);
    assert IsReady(l.s, l.queue[0]);
    hide Fits, FitsBut, Refresh, Suspended, Step;
    RetryIsRefresh(l.s, l.queue[0].caller);
    RefreshFits(l.(queue := l.queue[1..]), l.queue[0].caller, true);
  }

  lemma LoopStepFits(l: Loop, e: LoopEvent)
    requires Fits(l)
    ensures Fits(LoopStep(l, e))
  {
    match e {
      case Outside(outside) =>
        if IsOutside(outside) && Enabled(l.s, outside) {
          match outside {
            case Call(freshness) => CallFits(l, freshness);
            case ServerAnswers(f, outcome) => AnswerFits(l, f, outcome);
            case _ => StorageFits(l, outside);
          }
        }
      case NextJob =>
        if l.queue != [] {
          match l.queue[0] {
            case Subscribes(_, _, _) => SubscribeFits(l);
            case Resumes(_, _, _, _, _) => ResumeFits(l);
            case Retries(_, _, _) => RetryFits(l);
          }
        }
    }
  }

  lemma StorageFits(l: Loop, e: Event)
    requires Fits(l) && (e.LoginDone? || e.Clear?)
    ensures Fits(LoopStep(l, Outside(e)))
  {
    var l' := LoopStep(l, Outside(e));
    StepKeepsSingleFlight(l.s, e);
    assert forall job <- l.queue :: IsReady(l.s, job) ==> IsReady(l'.s, job);
    assert forall job <- l.reactions :: IsReaction(l.s, job) ==> IsReaction(l'.s, job);
    assert forall d :: 0 <= d < |l.s.callers| && HasJob(l, d) ==> HasJob(l', d);
  }

  lemma {:induction false} EveryLoopFits(stored: Option<AuthTokens>, events: seq<LoopEvent>)
    ensures Fits(LoopAfter(stored, events))
  {
    hide Fits;
    if events == [] {
      StartFits(stored);
    } else {
      EveryLoopFits(stored, events[..|events| - 1]);
      LoopStepFits(LoopAfter(stored, events[..|events| - 1]), events[|events| - 1]);
    }
  }

  lemma StartFits(stored: Option<AuthTokens>)
    ensures Fits(LoopStart(stored))
  {
  }

  // ----- what follows for every run of the loop -----

  /** Every run of the loop is a run of the protocol, whose theorems so hold of it. */
  lemma {:induction false} LoopIsRun(stored: Option<AuthTokens>, events: seq<LoopEvent>)
    ensures LoopAfter(stored, events).s == After(stored, ProtocolEvents(stored, events))
  {
    hide Fits, LoopStep, EventsOf, Step;
    if events != [] {
      var (front, last) := (events[..|events| - 1], events[|events| - 1]);
      LoopIsRun(stored, front);
      EveryLoopFits(stored, front);
      var l, es := LoopAfter(stored, front), EventsOf(LoopAfter(stored, front), last);
      LoopStepIsSteps(l, last);
      var before := ProtocolEvents(stored, front);
      if es == [] {
        assert before + es == before;
      } else {
        assert es == [es[0]];
        AfterStep(stored, before, es[0]);
      }
    }
  }

  /** No call is forgotten: when nothing is left to run, each call is done, or waits for the one flight that is still
      pending. */
  lemma NobodyForgotten(stored: Option<AuthTokens>, events: seq<LoopEvent>, c: nat)
    requires LoopAfter(stored, events).queue == [] && c < |LoopAfter(stored, events).s.callers|
    ensures var s := LoopAfter(stored, events).s;
      match s.callers[c]
      case Returned(_) => true
      case Failed(_) => true
      case Retrying => false
      case Waiting(f, _, _) => s.refreshPromise == Some(f) && IsPending(s, f)
  {
    EveryLoopFits(stored, events);
    var l := LoopAfter(stored, events);
    if l.s.callers[c].Waiting? || l.s.callers[c].Retrying? {
      assert HasJob(l, c);
      var job :| job in l.reactions && job.caller == c;
      assert IsReaction(l.s, job);
    }
  }

  // ----- when a logout or a login lasts in the loop -----

  lemma LoopFromStep(l: Loop, events: seq<LoopEvent>, e: LoopEvent)
    ensures LoopFrom(l, events + [e]) == LoopStep(LoopFrom(l, events), e)
  {
    hide LoopStep;
    assert (events + [e])[..|events|] == events;
  }

  lemma {:induction false} LoopFromFits(l: Loop, events: seq<LoopEvent>)
    requires Fits(l)
    ensures Fits(LoopFrom(l, events))
  {
    hide Fits;
    if events != [] {
      LoopFromFits(l, events[..|events| - 1]);
      LoopStepFits(LoopFrom(l, events[..|events| - 1]), events[|events| - 1]);
    }
  }

  lemma OwnerQueued(l: Loop) returns (j: nat)
    requires Fits(l) && l.s.refreshPromise.Some? && !IsPending(l.s, l.s.refreshPromise.value)
    ensures j < |l.queue| && l.queue[j].Resumes? && l.queue[j].owner && l.queue[j].flight == l.s.refreshPromise.value
  {
    var c: nat :| c < |l.s.callers| && IsOwner(l.s, c, l.s.refreshPromise.value);
    assert HasJob(l, c);
    NoReactions(l);
    var job :| job in l.queue && job.caller == c;
    assert IsReady(l.s, job);
    j :| 0 <= j < |l.queue| && l.queue[j] == job;
  }

  /** While a settled flight is in the slot, the jobs before its owner's change neither slot nor flights. */
  lemma JobBeforeOwner(l: Loop, j: nat)
    requires Fits(l) && l.s.refreshPromise.Some? && 0 < j < |l.queue|
    requires l.queue[j].Resumes? && l.queue[j].owner && l.queue[j].flight == l.s.refreshPromise.value
    ensures var l' := LoopStep(l, NextJob);
      && Fits(l') && l'.s.refreshPromise == l.s.refreshPromise && l'.s.flights == l.s.flights
      && j - 1 < |l'.queue| && l'.queue[j - 1] == l.queue[j]
  {
    hide HasJob;
    LoopStepFits(l, NextJob);
    var job := l.queue[0];
    assert IsReady(l.s, job) && IsReady(l.s, l.queue[j]);
    assert l.queue[1..][j - 1] == l.queue[j];
  }

  lemma OwnerStep(l: Loop)
    requires Fits(l) && l.queue != [] && l.queue[0].Resumes? && l.queue[0].owner
    ensures l.queue[0].flight < |l.s.flights|
    ensures var s' := LoopStep(l, NextJob).s;
      && s'.refreshPromise.None? && s'.flights == l.s.flights
      && s'.storage == StorageAfter(l.s.flights[l.queue[0].flight])
  {
    hide HasJob, OneEach;
    assert IsReady(l.s, l.queue[0]);
  }

  /** All jobs up to the owner's run. */
  lemma {:induction false} OwnerRuns(l: Loop, j: nat) returns (events: seq<LoopEvent>)
    requires Fits(l) && l.s.refreshPromise.Some? && j < |l.queue|
    requires l.queue[j].Resumes? && l.queue[j].owner && l.queue[j].flight == l.s.refreshPromise.value
    ensures forall e <- events :: e.NextJob?
    ensures var s := LoopFrom(l, events).s;
      && s.refreshPromise.None? && s.flights == l.s.flights
      && s.storage == StorageAfter(l.s.flights[l.s.refreshPromise.value])
    decreases j
  {
    hide LoopFrom;
    hide LoopStep, Fits, SingleFlight;
    if j == 0 {
      OwnerStep(l);
      events := [] + [NextJob];
      LoopFromStep(l, [], NextJob);
      LoopFromNothing(l);
    } else {
      JobBeforeOwner(l, j);
      var rest := OwnerRuns(LoopStep(l, NextJob), j - 1);
      events := [NextJob] + rest;
      LoopFromFirst(l, NextJob, rest);
    }
  }

  lemma LoopFromNothing(l: Loop)
    ensures LoopFrom(l, []) == l
  {
  }

  lemma {:induction false} LoopFromFirst(l: Loop, e: LoopEvent, rest: seq<LoopEvent>)
    ensures LoopFrom(l, [e] + rest) == LoopFrom(LoopStep(l, e), rest)
  {
    hide LoopStep;
    if rest == [] {
      assert [e] + rest == [] + [e];
      LoopFromStep(l, [], e);
    } else {
      var front := rest[..|rest| - 1];
      LoopFromFirst(l, e, front);
      assert ([e] + rest)[..|rest|] == [e] + front;
    }
  }

  /** Whoever holds the slot frees it, once the server has answered, with `tokens` if it has not yet: the owner's turn
      comes. */
  lemma FlightEndsInLoop(l: Loop, tokens: AuthTokens) returns (events: seq<LoopEvent>)
    requires Fits(l) && l.s.refreshPromise.Some?
    ensures forall e <- events :: e.NextJob? || (e.Outside? && e.e.ServerAnswers?)
    ensures var f, s := l.s.refreshPromise.value, LoopFrom(l, events).s;
      && s.refreshPromise.None? && |s.flights| == |l.s.flights|
      && s.storage == StorageAfter(if IsPending(l.s, f) then Resolved(tokens) else l.s.flights[f])
  {
    hide LoopFrom, HasJob, OneEach;
    var f := l.s.refreshPromise.value;
    if IsPending(l.s, f) {
      var answer := Outside(ServerAnswers(f, Resolved(tokens)));
      LoopStepFits(l, answer);
      var l1 := LoopStep(l, answer);
      var j := OwnerQueued(l1);
      var rest := OwnerRuns(l1, j);
      events := [answer] + rest;
      LoopFromFirst(l, answer, rest);
    } else {
      var j := OwnerQueued(l);
      events := OwnerRuns(l, j);
    }
  }

  predicate LogsIn(e: LoopEvent) {
    e.Outside? && e.e.LoginDone?
  }

  predicate LogsOut(e: LoopEvent) {
    e.Outside? && e.e.Clear?
  }

  lemma {:induction false} LoggedOutStaysInLoop(l: Loop, events: seq<LoopEvent>)
    requires Fits(l) && l.s.storage.None? && WillLeave(l.s, None) && forall e <- events :: !LogsIn(e)
    ensures LoopFrom(l, events).s.storage.None? && WillLeave(LoopFrom(l, events).s, None)
  {
    hide Fits, WillLeave, LoopStep, EventsOf, Step;
    if events != [] {
      var (front, last) := (events[..|events| - 1], events[|events| - 1]);
      var before := LoopFrom(l, front);
      assert last in events;
      LoggedOutStaysInLoop(l, front);
      LoopFromFits(l, front);
      LoopStepIsSteps(before, last);
      if EventsOf(before, last) != [] {
        NoLogin(before, last);
        FitsIsSingle(before);
        StepKeepsLoggedOut(before.s, EventsOf(before, last)[0]);
      }
    }
  }

  lemma NoLogin(l: Loop, e: LoopEvent)
    ensures !LogsIn(e) && EventsOf(l, e) != [] ==> !EventsOf(l, e)[0].LoginDone?
    ensures !LogsOut(e) && EventsOf(l, e) != [] ==> !EventsOf(l, e)[0].Clear?
  {
  }

  lemma FitsIsSingle(l: Loop)
    requires Fits(l)
    ensures SingleFlight(l.s)
  {
  }

  /** In the loop too, a logout lasts until the next login, whatever else happens, exactly when no refresh is under
      way, or one that failed already. */
  lemma LogoutLastsInLoopIff(l: Loop)
    requires Fits(l)
    ensures (forall events: seq<LoopEvent> | forall e <- events :: !LogsIn(e) ::
               LoopFrom(LoopStep(l, Outside(Clear)), events).s.storage.None?) <==>
            (l.s.refreshPromise.Some? ==> l.s.flights[l.s.refreshPromise.value].Rejected?)
  {
    hide LoopFrom, HasJob, OneEach;
    var l1 := LoopStep(l, Outside(Clear));
    LoopStepFits(l, Outside(Clear));
    if l.s.refreshPromise.Some? ==> l.s.flights[l.s.refreshPromise.value].Rejected? {
      forall events: seq<LoopEvent> | forall e <- events :: !LogsIn(e)
        ensures LoopFrom(l1, events).s.storage.None?
      {
        LoggedOutStaysInLoop(l1, events);
      }
    } else {
      var events := FlightEndsInLoop(l1, AuthTokens("", ""));
      assert forall e <- events :: !LogsIn(e);
      assert LoopFrom(l1, events).s.storage.Some?;
    }
  }

  lemma {:induction false} LoginStaysInLoop(l: Loop, events: seq<LoopEvent>, tokens: AuthTokens)
    requires Fits(l) && l.s.storage == Some(tokens) && WillLeave(l.s, Some(tokens))
    requires forall e <- events :: !LogsIn(e) && !LogsOut(e)
    ensures var s := LoopFrom(l, events).s;
      && |s.flights| >= |l.s.flights|
      && (|s.flights| == |l.s.flights| ==> s.storage == Some(tokens) && WillLeave(s, Some(tokens)))
  {
    hide Fits, WillLeave, LoopStep, EventsOf, Step;
    if events != [] {
      var (front, last) := (events[..|events| - 1], events[|events| - 1]);
      var before := LoopFrom(l, front);
      assert last in events;
      LoginStaysInLoop(l, front, tokens);
      LoopFromFits(l, front);
      LoopStepIsSteps(before, last);
      if EventsOf(before, last) != [] {
        var e := EventsOf(before, last)[0];
        NoLogin(before, last);
        FitsIsSingle(before);
        FlightsGrow(before.s, e);
        if |Step(before.s, e).flights| == |l.s.flights| {
          StepKeepsLogin(before.s, e, tokens);
        }
      }
    }
  }

  /** And a login's tokens stay until the next login, logout or new refresh, exactly when no refresh is under way, or
      one that brought the same tokens. */
  lemma LoginLastsInLoopIff(l: Loop, tokens: AuthTokens)
    requires Fits(l)
    ensures (forall events: seq<LoopEvent> |
               && (forall e <- events :: !LogsIn(e) && !LogsOut(e))
               && |LoopFrom(LoopStep(l, Outside(LoginDone(tokens))), events).s.flights| == |l.s.flights| ::
               LoopFrom(LoopStep(l, Outside(LoginDone(tokens))), events).s.storage == Some(tokens)) <==>
            (l.s.refreshPromise.Some? ==> l.s.flights[l.s.refreshPromise.value] == Resolved(tokens))
  {
    hide LoopFrom, HasJob, OneEach;
    var l1 := LoopStep(l, Outside(LoginDone(tokens)));
    LoopStepFits(l, Outside(LoginDone(tokens)));
    if l.s.refreshPromise.Some? ==> l.s.flights[l.s.refreshPromise.value] == Resolved(tokens) {
      forall events: seq<LoopEvent> |
          (forall e <- events :: !LogsIn(e) && !LogsOut(e)) && |LoopFrom(l1, events).s.flights| == |l.s.flights|
        ensures LoopFrom(l1, events).s.storage == Some(tokens)
      {
        LoginStaysInLoop(l1, events, tokens);
      }
    } else {
      var events := FlightEndsInLoop(l1, AuthTokens(tokens.access + ".", tokens.refresh));
      assert |tokens.access + "."| != |tokens.access|;
      assert forall e <- events :: !LogsIn(e) && !LogsOut(e);
      assert LoopFrom(l1, events).s.storage != Some(tokens);
    }
  }
}
