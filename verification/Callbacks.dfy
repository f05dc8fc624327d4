/** How often `onTokenExpired` runs: a bound over every run of the event loop, and runs that reach it. */
module Callbacks {
  import opened AuthProtocol
  import opened AuthRuns
  import opened EventLoop
  import opened Options

  // ----- who started the flights -----

  /** Callers that one flight failed: those that subscribed while it held the slot, or the late ones. */
  datatype Group = Group(flight: nat, late: bool)

  /** What a run is charged for: the flights that a call started or joined, and of these the ones that it joined after
      they had settled; the flights that a retry started, and the groups that these retries belong to; and how often
      tokens came into the storage. */
  datatype Ledger = Ledger(
    called: set<nat>, late: set<nat>, restarted: set<nat>, spent: set<Group>, sessions: nat)

  function Booked(l: Loop, e: LoopEvent, t: Ledger): Ledger {
    match e
    case Outside(Call(freshness)) =>
      if l.s.storage.None? || freshness.Fresh? then t
      else
        var f := if l.s.refreshPromise.Some? then l.s.refreshPromise.value else |l.s.flights|;
        t.(called := t.called + {f},
           late := if l.s.refreshPromise.Some? && !IsPending(l.s, f) then t.late + {f} else t.late)
    case Outside(LoginDone(_)) => t.(sessions := t.sessions + 1)
    case Outside(_) => t
    case NextJob =>
      if l.queue == [] then t
      else
        match l.queue[0]
        case Subscribes(_, _, _) => t
        case Resumes(_, f, owner, _, _) =>
          if owner && f < |l.s.flights| && l.s.flights[f].Resolved? then t.(sessions := t.sessions + 1) else t
        case Retries(_, f, late) =>
          if l.s.refreshPromise.Some? then t
          else t.(restarted := t.restarted + {|l.s.flights|}, spent := t.spent + {Group(f, late)})
  }

  function Books(stored: Option<AuthTokens>, events: seq<LoopEvent>): Ledger {
    if events == [] then Ledger({}, {}, {}, {}, if stored.Some? then 1 else 0)
    else
      var front := events[..|events| - 1];
      Booked(LoopAfter(stored, front), events[|events| - 1], Books(stored, front))
  }

  // ----- the order of the jobs -----

  predicate OwnersFirst(q: seq<Job>) {
    forall i, j | 0 <= i < |q| && 0 <= j < |q| && q[i].flight == q[j].flight ::
      q[i].Resumes? && q[i].owner && q[j].Resumes? && !q[j].owner ==> i < j
  }

  /** A group's callers have all resumed before the first of them retries. */
  predicate ResumedFirst(q: seq<Job>) {
    forall i, j | 0 <= i < |q| && 0 <= j < |q| && q[i].flight == q[j].flight ::
      q[i].Resumes? && q[j].Retries? && q[i].late == q[j].late ==> i < j
  }

  /** The late ones have all subscribed before the first of them resumes. */
  predicate SubscribedFirst(q: seq<Job>) {
    && (forall i, j | 0 <= i < |q| && 0 <= j < |q| && q[i].flight == q[j].flight ::
          q[i].Subscribes? && q[j].Resumes? && q[j].late ==> i < j)
    && (forall a <- q, b <- q | a.flight == b.flight :: a.Subscribes? && b.Retries? ==> !b.late)
  }

  predicate Entered(job: Job, slot: Option<nat>, t: Ledger) {
    match job
    case Subscribes(_, f, first) => Group(f, true) !in t.spent && (first ==> f in t.called)
    case Resumes(_, f, _, first, late) =>
      Group(f, late) !in t.spent && (first ==> f in t.called) && (first && late ==> f in t.late)
    case Retries(_, f, late) => slot != Some(f) && f in t.called && (late ==> f in t.late)
  }

  /** Once one of a group started a flight, the others join it: they retry before its owner resumes. */
  predicate SpentJoin(q: seq<Job>, slot: Option<nat>, t: Ledger) {
    forall i :: 0 <= i < |q| && q[i].Retries? && Group(q[i].flight, q[i].late) in t.spent ==>
      slot.Some? && forall j :: 0 <= j < |q| && q[j].Resumes? && q[j].owner ==> i < j
  }

  /** Who joined a flight before it settled subscribes before its owner resumes. */
  predicate Punctual(q: seq<Job>, s: State, t: Ledger) {
    forall i | 0 <= i < |q| && q[i].Subscribes? && q[i].first ::
      q[i].flight !in t.late && !IsPending(s, q[i].flight) ==>
      && s.refreshPromise == Some(q[i].flight)
      && forall j :: 0 <= j < |q| && q[j].Resumes? && q[j].owner ==> i < j
  }

  ghost predicate Ordered(l: Loop, t: Ledger) {
    && OwnersFirst(l.queue) && OwnersFirst(l.reactions)
    && ResumedFirst(l.queue) && SubscribedFirst(l.queue)
    && (forall job <- l.queue :: Entered(job, l.s.refreshPromise, t))
    && (forall job <- l.reactions :: job.Resumes? && Entered(job, l.s.refreshPromise, t))
    && SpentJoin(l.queue, l.s.refreshPromise, t)
    && Punctual(l.queue, l.s, t)
    && (forall g <- t.spent :: g.flight < |l.s.flights| && l.s.refreshPromise != Some(g.flight))
  }

  lemma PopOrdered(l: Loop, t: Ledger)
    requires Ordered(l, t) && l.queue != []
    ensures Ordered(l.(queue := l.queue[1..]), t)
  {
    var q := l.queue[1..];
    assert forall i :: 0 <= i < |q| ==> q[i] == l.queue[i + 1];
    assert forall job <- q :: job in l.queue;
  }

  /** `job` may be queued last. */
  ghost predicate MayFollow(job: Job, l: Loop, t: Ledger) {
    && Entered(job, l.s.refreshPromise, t)
    && match job
       case Subscribes(_, f, first) =>
         && (forall other <- l.queue :: other.flight == f ==>
               !(other.Retries? && other.late) && !(other.Resumes? && other.late))
         && (first && f !in t.late && !IsPending(l.s, f) ==>
               l.s.refreshPromise == Some(f) && forall other <- l.queue :: !(other.Resumes? && other.owner))
       case Resumes(_, f, owner, _, late) =>
         forall other <- l.queue :: other.flight == f ==>
           !(other.Retries? && other.late == late) && !(owner && other.Resumes? && !other.owner)
       case Retries(_, f, late) =>
         && Group(f, late) !in t.spent
         && (late ==> forall other <- l.queue :: other.flight == f ==> !other.Subscribes?)
  }

  lemma PushOwners(q: seq<Job>, job: Job)
    requires OwnersFirst(q)
    requires job.Resumes? && job.owner ==>
      forall other <- q | other.flight == job.flight :: other.Resumes? ==> other.owner
    ensures OwnersFirst(q + [job])
  {
  }

  lemma PushResumed(q: seq<Job>, job: Job)
    requires ResumedFirst(q)
    requires job.Resumes? ==>
      forall other <- q | other.flight == job.flight :: other.Retries? ==> other.late != job.late
    ensures ResumedFirst(q + [job])
  {
  }

  lemma PushSubscribed(q: seq<Job>, job: Job)
    requires SubscribedFirst(q)
    requires job.Subscribes? ==> forall other <- q | other.flight == job.flight ::
      !(other.Retries? && other.late) && !(other.Resumes? && other.late)
    requires job.Retries? && job.late ==> forall other <- q | other.flight == job.flight :: !other.Subscribes?
    ensures SubscribedFirst(q + [job])
  {
  }

  lemma PushSpent(q: seq<Job>, slot: Option<nat>, t: Ledger, job: Job)
    requires SpentJoin(q, slot, t)
    requires job.Retries? ==> Group(job.flight, job.late) !in t.spent
    ensures SpentJoin(q + [job], slot, t)
  {
  }

  lemma PushPunctual(q: seq<Job>, s: State, t: Ledger, job: Job)
    requires Punctual(q, s, t)
    requires job.Subscribes? && job.first && job.flight !in t.late && !IsPending(s, job.flight) ==>
      s.refreshPromise == Some(job.flight) && forall other <- q :: !(other.Resumes? && other.owner)
    ensures Punctual(q + [job], s, t)
  {
  }

  lemma PushOrdered(l: Loop, t: Ledger, job: Job)
    requires Ordered(l, t) && MayFollow(job, l, t)
    ensures Ordered(l.(queue := l.queue + [job]), t)
  {
    hide OwnersFirst, ResumedFirst, SubscribedFirst, SpentJoin, Punctual, IsPending, Entered;
    PushOwners(l.queue, job);
    PushResumed(l.queue, job);
    PushSubscribed(l.queue, job);
    PushSpent(l.queue, l.s.refreshPromise, t, job);
    PushPunctual(l.queue, l.s, t, job);
  }

  // ----- every step keeps the order -----

  lemma RegisterOrdered(l: Loop, t: Ledger, job: Job)
    requires Ordered(l, t) && job.Resumes? && Entered(job, l.s.refreshPromise, t)
    requires job.owner ==> l.reactions == []
    ensures Ordered(l.(reactions := l.reactions + [job]), t)
  {
    hide OwnersFirst, ResumedFirst, SubscribedFirst, SpentJoin, Punctual, IsPending, Entered;
    PushOwners(l.reactions, job);
  }

  /** The flight that is pending has nothing queued but subscriptions. */
  lemma PendingQueued(l: Loop, f: nat)
    requires Fits(l) && IsPending(l.s, f)
    ensures l.s.refreshPromise == Some(f)
    ensures forall job <- l.queue ::
      (job.flight == f ==> job.Subscribes? || job.Retries?) && !(job.Resumes? && job.owner)
    ensures forall job <- l.reactions :: job.flight == f && job.Resumes? && !job.late
  {
    forall job <- l.queue
      ensures job.flight == f ==> job.Subscribes? || job.Retries?
      ensures !(job.Resumes? && job.owner)
    {
      assert IsReady(l.s, job);
    }
    forall job <- l.reactions
      ensures job.flight == f && job.Resumes? && !job.late
    {
      assert IsReaction(l.s, job);
    }
  }

  lemma AnswerOrdered(l: Loop, t: Ledger, f: nat, outcome: Outcome)
    requires Fits(l) && Ordered(l, t) && Enabled(l.s, ServerAnswers(f, outcome))
    ensures Ordered(LoopStep(l, Outside(ServerAnswers(f, outcome))), t)
  {
    hide Fits;
    PendingQueued(l, f);
    var s' := Step(l.s, ServerAnswers(f, outcome));
    assert forall g :: IsPending(s', g) <==> IsPending(l.s, g) && g != f;
    hide Step;
    assert forall job <- l.queue :: Entered(job, l.s.refreshPromise, t) && job.flight == f ==> job.Subscribes?;
    AnswerOrders(l.queue, l.reactions, f);
    AnswerJoins(l.queue, l.reactions, l.s, s', f, t);
    hide OwnersFirst, ResumedFirst, SubscribedFirst, SpentJoin, Punctual, IsPending, Entered;
    EmptyOwners();
  }

  lemma EmptyOwners()
    ensures OwnersFirst([])
  {
  }

  lemma AnswerOrders(q: seq<Job>, reactions: seq<Job>, f: nat)
    requires OwnersFirst(q) && OwnersFirst(reactions) && ResumedFirst(q) && SubscribedFirst(q)
    requires forall job <- q :: job.flight == f ==> job.Subscribes?
    requires forall job <- reactions :: job.flight == f && job.Resumes? && !job.late
    ensures OwnersFirst(q + reactions) && ResumedFirst(q + reactions) && SubscribedFirst(q + reactions)
  {
  }

  lemma AnswerJoins(q: seq<Job>, reactions: seq<Job>, s: State, s': State, f: nat, t: Ledger)
    requires SpentJoin(q, s.refreshPromise, t) && Punctual(q, s, t)
    requires s'.refreshPromise == s.refreshPromise == Some(f)
    requires forall g :: IsPending(s', g) <==> IsPending(s, g) && g != f
    requires forall job <- q :: !(job.Resumes? && job.owner)
    requires forall job <- reactions :: job.Resumes?
    ensures SpentJoin(q + reactions, s'.refreshPromise, t) && Punctual(q + reactions, s', t)
  {
    var all := q + reactions;
    assert forall i :: 0 <= i < |q| ==> all[i] == q[i] && q[i] in q;
    assert forall i :: |q| <= i < |all| ==> all[i] == reactions[i - |q|] && all[i] in reactions;
  }

  lemma MoreCalled(l: Loop, t: Ledger, t': Ledger)
    requires Ordered(l, t) && t.called <= t'.called && t.late <= t'.late && t.spent == t'.spent
    ensures Ordered(l, t')
  {
  }

  /** A job that is queued already may stay when a flight starts. */
  ghost predicate Unspent(job: Job, groups: set<Group>) {
    && (job.Resumes? ==> !job.owner && Group(job.flight, job.late) !in groups)
    && (job.Subscribes? ==> Group(job.flight, true) !in groups)
  }

  lemma StartOrdered(l: Loop, s': State, t: Ledger, t': Ledger, groups: set<Group>)
    requires Ordered(l, t) && l.reactions == [] && l.s.refreshPromise.None?
    requires s'.refreshPromise == Some(|l.s.flights|)
    requires |s'.flights| == |l.s.flights| + 1 && s'.flights[..|l.s.flights|] == l.s.flights
    requires forall f :: !IsPending(l.s, f)
    requires forall job <- l.queue :: job.flight < |l.s.flights| && Unspent(job, groups)
    requires forall g <- groups :: g.flight < |l.s.flights|
    requires t.called <= t'.called && t.late == t'.late && t'.spent == t.spent + groups
    ensures Ordered(l.(s := s'), t')
  {
    assert forall f :: 0 <= f < |l.s.flights| ==> s'.flights[f] == s'.flights[..|l.s.flights|][f];
  }

  lemma NothingPending(s: State)
    requires SingleFlight(s) && s.refreshPromise.None?
    ensures forall f :: !IsPending(s, f)
  {
  }

  lemma NoOwners(l: Loop)
    requires Fits(l) && l.s.refreshPromise.None?
    ensures forall job <- l.queue :: job.flight < |l.s.flights| && !(job.Resumes? && job.owner)
  {
    forall job <- l.queue
      ensures job.flight < |l.s.flights| && !(job.Resumes? && job.owner)
    {
      assert IsReady(l.s, job);
    }
  }

  /** A caller that started a flight gets its job. */
  lemma StartedOrdered(l: Loop, c: nat, y: nat, lastTry: bool, t: Ledger)
    requires Ordered(l, t) && c < |l.s.callers| && l.s.callers[c] == Waiting(y, true, lastTry)
    requires l.s.refreshPromise == Some(y) && l.reactions == [] && (!lastTry ==> y in t.called)
    requires forall job <- l.queue :: job.flight < y
    ensures Ordered(Suspended(l, c), t)
  {
    hide OwnersFirst, ResumedFirst, SubscribedFirst, SpentJoin, Punctual;
    var job := Resumes(c, y, true, !lastTry, false);
    if IsPending(l.s, y) {
      RegisterOrdered(l, t, job);
      assert [] + [job] == [job];
    } else {
      PushOrdered(l, t, job);
    }
  }

  /** A caller that joined a flight gets its job. */
  lemma JoinedOrdered(l: Loop, c: nat, f: nat, lastTry: bool, t: Ledger)
    requires Ordered(l, t) && c < |l.s.callers| && l.s.callers[c] == Waiting(f, false, lastTry)
    requires l.s.refreshPromise == Some(f) && (!lastTry ==> f in t.called && (IsPending(l.s, f) || f in t.late))
    requires forall job <- l.queue :: job.Resumes? && job.late ==> job.flight != f
    ensures Ordered(Suspended(l, c), t)
  {
    hide OwnersFirst, ResumedFirst, SubscribedFirst, SpentJoin, Punctual, IsPending;
    PushOrdered(l, t, Subscribes(c, f, !lastTry));
  }

  lemma NotLateInSlot(l: Loop)
    requires Fits(l)
    ensures forall job <- l.queue :: job.Resumes? && job.late ==> l.s.refreshPromise != Some(job.flight)
  {
    forall job <- l.queue | job.Resumes? && job.late
      ensures l.s.refreshPromise != Some(job.flight)
    {
      assert IsReady(l.s, job);
    }
  }

  lemma CallOrdered(l: Loop, t: Ledger, freshness: Freshness)
    requires Fits(l) && Ordered(l, t)
    ensures Ordered(LoopStep(l, Outside(Call(freshness))), Booked(l, Outside(Call(freshness)), t))
  {
    hide OwnersFirst, ResumedFirst, SubscribedFirst, SpentJoin, Punctual, HasJob, OneEach;
    var c, t' := |l.s.callers|, Booked(l, Outside(Call(freshness)), t);
    var s' := Step(l.s, Call(freshness));
    if l.s.storage.Some? && !freshness.Fresh? {
      if l.s.refreshPromise.Some? {
        MoreCalled(l, t, t');
        NotLateInSlot(l);
        SlotOnly(l, s', t');
        JoinedOrdered(l.(s := s'), c, l.s.refreshPromise.value, freshness.Undecodable?, t');
      } else {
        NoOwners(l);
        NothingPending(l.s);
        NoReactions(l);
        StartOrdered(l, s', t, t', {});
        StartedOrdered(l.(s := s'), c, |l.s.flights|, freshness.Undecodable?, t');
      }
    } else {
      SlotOnly(l, s', t');
    }
  }

  /** The order does not depend on the storage and the callers. */
  lemma SlotOnly(l: Loop, s': State, t: Ledger)
    requires Ordered(l, t) && s'.refreshPromise == l.s.refreshPromise && s'.flights == l.s.flights
    ensures Ordered(l.(s := s'), t)
  {
    assert forall f :: IsPending(s', f) <==> IsPending(l.s, f);
  }

  lemma RetryOrdered(l: Loop, t: Ledger)
    requires Fits(l) && Ordered(l, t) && l.queue != [] && l.queue[0].Retries?
    ensures Ordered(LoopStep(l, NextJob), Booked(l, NextJob, t))
  {
    hide OwnersFirst, Punctual, HasJob, OneEach;
    var job, rest := l.queue[0], l.(queue := l.queue[1..]);
    var c, t' := job.caller, Booked(l, NextJob, t);
    PopOrdered(l, t);
    Popped(l);
    assert IsReady(l.s, job);
    assert forall other <- rest.queue :: other in l.queue;
    var s' := Step(l.s, Retry(c));
    if l.s.refreshPromise.Some? {
      NotLateInSlot(l);
      SlotOnly(rest, s', t);
      JoinedOrdered(rest.(s := s'), c, l.s.refreshPromise.value, true, t);
    } else {
      NoOwners(l);
      NothingPending(l.s);
      NoReactions(l);
      RetryUnspent(l.queue);
      StartOrdered(rest, s', t, t', {Group(job.flight, job.late)});
      StartedOrdered(rest.(s := s'), c, |l.s.flights|, true, t');
    }
  }

  lemma RetryUnspent(q: seq<Job>)
    requires q != [] && q[0].Retries? && ResumedFirst(q) && SubscribedFirst(q)
    requires forall job <- q :: !(job.Resumes? && job.owner)
    ensures forall job <- q[1..] :: Unspent(job, {Group(q[0].flight, q[0].late)})
  {
    assert q[0] in q;
    forall job <- q[1..]
      ensures Unspent(job, {Group(q[0].flight, q[0].late)})
    {
      var i :| 0 <= i < |q| - 1 && q[1..][i] == job;
      assert q[i + 1] == job && job in q;
    }
  }

  lemma SubscribeOrdered(l: Loop, t: Ledger)
    requires Fits(l) && Ordered(l, t) && l.queue != [] && l.queue[0].Subscribes?
    ensures Ordered(LoopStep(l, NextJob), t)
  {
    hide OwnersFirst, ResumedFirst, SpentJoin, HasJob, OneEach;
    var job, rest := l.queue[0], l.(queue := l.queue[1..]);
    PopOrdered(l, t);
    assert IsReady(l.s, job);
    assert Entered(job, l.s.refreshPromise, t);
    if IsPending(l.s, job.flight) {
      PendingQueued(l, job.flight);
      RegisterOrdered(rest, t, Resumes(job.caller, job.flight, false, job.first, false));
    } else {
      var late := l.s.refreshPromise != Some(job.flight);
      assert forall other <- rest.queue :: other in l.queue;
      PushOrdered(rest, t, Resumes(job.caller, job.flight, false, job.first, late));
    }
  }

  /** The owner resumes before all who joined its flight. */
  lemma OwnerBefore(l: Loop, t: Ledger, f: nat)
    requires Fits(l) && Ordered(l, t) && l.queue != []
    requires l.s.refreshPromise == Some(f) && !IsPending(l.s, f)
    ensures l.queue[0].Resumes? && l.queue[0].flight == f ==> l.queue[0].owner
  {
    hide Fits;
    var j := OwnerQueued(l);
  }

  /** The slot is freed: the callers of spent groups have all retried, and who joined in time has subscribed. */
  lemma ReleasedOrdered(l: Loop, s': State, t: Ledger)
    requires Ordered(l, t) && l.queue != [] && l.queue[0].Resumes? && l.queue[0].owner && l.reactions == []
    requires s'.refreshPromise.None? && s'.flights == l.s.flights
    ensures Ordered(Loop(s', l.queue[1..], []), t)
  {
    var q := l.queue[1..];
    PopOrdered(l, t);
    assert forall f :: IsPending(s', f) <==> IsPending(l.s, f);
    assert forall i :: 0 <= i < |q| ==> q[i] == l.queue[i + 1];
  }

  lemma FailureMayFollow(l: Loop, t: Ledger)
    requires Ordered(l, t) && l.queue != [] && l.queue[0].Resumes? && l.queue[0].first
    ensures var job, q := l.queue[0], l.queue[1..];
      && Group(job.flight, job.late) !in t.spent
      && job.flight in t.called && (job.late ==> job.flight in t.late)
      && (job.late ==> forall other <- q :: other.flight == job.flight ==> !other.Subscribes?)
  {
    var job, q := l.queue[0], l.queue[1..];
    assert Entered(job, l.s.refreshPromise, t);
    forall other <- q | job.late && other.flight == job.flight
      ensures !other.Subscribes?
    {
      var i :| 0 <= i < |q| && q[i] == other;
      assert l.queue[i + 1] == other;
    }
  }

  lemma ResumeOrdered(l: Loop, t: Ledger)
    requires Fits(l) && Ordered(l, t) && l.queue != [] && l.queue[0].Resumes?
    ensures Ordered(LoopStep(l, NextJob), t)
  {
    hide Step, SingleFlight, OwnersFirst, ResumedFirst, SubscribedFirst, SpentJoin, Punctual, HasJob, OneEach;
    var job, rest := l.queue[0], l.(queue := l.queue[1..]);
    assert IsReady(l.s, job);
    ResumedState(l.s, job);
    var s' := Step(l.s, ResumeEvent(job));
    if job.owner {
      NoReactions(l);
      ReleasedOrdered(l, s', t);
    } else {
      PopOrdered(l, t);
      SlotOnly(rest, s', t);
      if l.s.refreshPromise == Some(job.flight) {
        OwnerBefore(l, t, job.flight);
      }
    }
    if s'.callers[job.caller].Retrying? {
      FailureMayFollow(l, t);
      PushOrdered(rest.(s := s'), t, Retries(job.caller, job.flight, job.late));
    } else {
      assert rest.queue + [] == rest.queue;
    }
  }

  lemma SameSpent(l: Loop, t: Ledger, n: nat)
    requires Ordered(l, t)
    ensures Ordered(l, t.(sessions := n))
  {
    MoreCalled(l, t, t.(sessions := n));
  }

  lemma LoopStepOrdered(l: Loop, e: LoopEvent, t: Ledger)
    requires Fits(l) && Ordered(l, t)
    ensures Ordered(LoopStep(l, e), Booked(l, e, t))
  {
    hide Fits, Ordered;
    var t' := Booked(l, e, t);
    match e {
      case Outside(outside) =>
        if IsOutside(outside) && Enabled(l.s, outside) {
          match outside {
            case Call(freshness) => CallOrdered(l, t, freshness);
            case ServerAnswers(f, outcome) => AnswerOrdered(l, t, f, outcome);
            case _ =>
              SlotOnly(l, Step(l.s, outside), t);
              SameSpent(LoopStep(l, e), t, t'.sessions);
          }
        }
      case NextJob =>
        if l.queue != [] {
          match l.queue[0] {
            case Subscribes(_, _, _) => SubscribeOrdered(l, t);
            case Resumes(_, _, _, _, _) =>
              ResumeOrdered(l, t);
              SameSpent(LoopStep(l, e), t, t'.sessions);
            case Retries(_, _, _) => RetryOrdered(l, t);
          }
        }
    }
  }

  // ----- the accounts -----

  /** The flights that failed and left the slot: the callback ran for each of them. */
  function FailedOnes(s: State): set<nat> {
    set f: nat | f < |s.flights| && s.flights[f].Rejected? && s.refreshPromise != Some(f)
  }

  /** Each failed flight that a call waited for ended a session; another one may be on. */
  ghost predicate Paid(s: State, t: Ledger) {
    |FailedOnes(s) * t.called| +
    (if s.storage.Some? || (s.refreshPromise.Some? && s.refreshPromise.value in t.called) then 1 else 0) <= t.sessions
  }

  ghost predicate Balanced(s: State, t: Ledger) {
    && (forall f: nat :: f < |s.flights| ==> f in t.called || f in t.restarted)
    && (forall f <- t.restarted :: f < |s.flights|)
    && |t.restarted| == |t.spent|
    && (forall g <- t.spent :: g.flight in FailedOnes(s) && g.flight in t.called && (g.late ==> g.flight in t.late))
    && s.expiredCalls == |FailedOnes(s)|
    && Paid(s, t)
    && (forall f <- t.called :: f < |s.flights|)
    && t.late <= t.called
  }

  /** A step that releases no flight. */
  lemma SameFailed(s: State, s': State)
    requires SingleFlight(s) && |s.flights| <= |s'.flights|
    requires forall f: nat :: f < |s.flights| && s.refreshPromise != Some(f) ==> s'.flights[f] == s.flights[f]
    requires (s'.refreshPromise == s.refreshPromise && |s'.flights| == |s.flights|) ||
             (s.refreshPromise.None? && s'.refreshPromise == Some(|s.flights|) && |s'.flights| == |s.flights| + 1)
    ensures FailedOnes(s') == FailedOnes(s)
  {
    assert forall f: nat :: f in FailedOnes(s') <==> f in FailedOnes(s);
  }

  lemma CalledState(s: State, freshness: Freshness)
    requires SingleFlight(s)
    ensures var s' := Step(s, Call(freshness));
      && |s'.callers| == |s.callers| + 1
      && s'.storage == s.storage && s'.expiredCalls == s.expiredCalls
      && FailedOnes(s') == FailedOnes(s)
      && (s.refreshPromise.Some? || s.storage.None? || freshness.Fresh? ==>
            s'.refreshPromise == s.refreshPromise && s'.flights == s.flights)
      && (s.refreshPromise.None? && s.storage.Some? && !freshness.Fresh? ==>
            s'.refreshPromise == Some(|s.flights|) && |s'.flights| == |s.flights| + 1)
  {
    SameFailed(s, Step(s, Call(freshness)));
  }

  lemma CalledBalanced(s: State, s': State, t: Ledger, t': Ledger, f: nat)
    requires Balanced(s, t) && s.storage.Some? && s'.storage == s.storage && s'.expiredCalls == s.expiredCalls
    requires FailedOnes(s') == FailedOnes(s) && s'.refreshPromise == Some(f) && f < |s'.flights|
    requires |s'.flights| == |s.flights| || (|s'.flights| == |s.flights| + 1 && f == |s.flights|)
    requires t' == t.(called := t.called + {f}, late := t'.late) && t.late <= t'.late <= t.late + {f}
    ensures Balanced(s', t')
  {
    hide FailedOnes, Paid;
    CalledPaid(s, s', t, t', f);
  }

  lemma CalledPaid(s: State, s': State, t: Ledger, t': Ledger, f: nat)
    requires Paid(s, t) && s.storage.Some?
    requires FailedOnes(s') == FailedOnes(s) && s'.refreshPromise == Some(f)
    requires t'.called == t.called + {f} && t'.sessions == t.sessions
    ensures Paid(s', t')
  {
    NotFailed(s', f);
    assert FailedOnes(s') * t'.called == FailedOnes(s) * t.called;
  }

  lemma SameBalanced(s: State, s': State, t: Ledger)
    requires Balanced(s, t) && s'.storage == s.storage && s'.expiredCalls == s.expiredCalls
    requires s'.flights == s.flights && s'.refreshPromise == s.refreshPromise
    ensures Balanced(s', t)
  {
    SameOnes(s, s');
    hide FailedOnes;
  }

  lemma CallBalanced(l: Loop, t: Ledger, freshness: Freshness)
    requires Fits(l) && Balanced(l.s, t)
    ensures Balanced(LoopStep(l, Outside(Call(freshness))).s, Booked(l, Outside(Call(freshness)), t))
  {
    assert l.s.refreshPromise.Some? ==> l.s.refreshPromise.value < |l.s.flights|;
    CalledState(l.s, freshness);
    hide FailedOnes, Fits, Step, Balanced;
    var s', t' := Step(l.s, Call(freshness)), Booked(l, Outside(Call(freshness)), t);
    SuspendedState(l.(s := s'), |l.s.callers|);
    if l.s.storage.Some? && !freshness.Fresh? {
      var f := if l.s.refreshPromise.Some? then l.s.refreshPromise.value else |l.s.flights|;
      CalledBalanced(l.s, s', t, t', f);
    } else {
      SameBalanced(l.s, s', t);
    }
  }

  lemma SuspendedState(l: Loop, c: nat)
    requires c < |l.s.callers|
    ensures Suspended(l, c).s == l.s
  {
  }

  lemma NotFailed(s: State, f: nat)
    requires s.refreshPromise == Some(f)
    ensures f !in FailedOnes(s)
  {
  }

  /** A retry finds its group unspent when the slot is free. */
  lemma RetryUnspentGroup(l: Loop, t: Ledger)
    requires Fits(l) && Ordered(l, t) && l.queue != [] && l.queue[0].Retries?
    ensures var job := l.queue[0];
      && IsReady(l.s, job) && Entered(job, l.s.refreshPromise, t)
      && (l.s.refreshPromise.None? ==> Group(job.flight, job.late) !in t.spent)
      && job.flight in FailedOnes(l.s)
  {
    hide HasJob, OneEach, OwnersFirst, ResumedFirst, SubscribedFirst, Punctual, SingleFlight;
    var job := l.queue[0];
    assert IsReady(l.s, job) && Entered(job, l.s.refreshPromise, t);
  }

  lemma RefreshedState(s: State, c: nat)
    requires SingleFlight(s) && c < |s.callers| && s.callers[c].Retrying?
    ensures var s' := Step(s, Retry(c));
      && c < |s'.callers|
      && s'.storage == s.storage && s'.expiredCalls == s.expiredCalls
      && FailedOnes(s') == FailedOnes(s)
      && (s.refreshPromise.Some? ==> s'.refreshPromise == s.refreshPromise && s'.flights == s.flights)
      && (s.refreshPromise.None? ==>
            s'.refreshPromise == Some(|s.flights|) && |s'.flights| == |s.flights| + 1)
  {
    SameFailed(s, Step(s, Retry(c)));
  }

  lemma RetryBalanced(l: Loop, t: Ledger)
    requires Fits(l) && Ordered(l, t) && Balanced(l.s, t) && l.queue != [] && l.queue[0].Retries?
    ensures Balanced(LoopStep(l, NextJob).s, Booked(l, NextJob, t))
  {
    hide Ordered, FailedOnes, Step, HasJob, OneEach;
    RetryUnspentGroup(l, t);
    var job := l.queue[0];
    RefreshedState(l.s, job.caller);
    var s' := Step(l.s, Retry(job.caller));
    hide Fits;
    SuspendedState(Loop(s', l.queue[1..], l.reactions), job.caller);
    if l.s.refreshPromise.None? {
      assert |t.spent + {Group(job.flight, job.late)}| == |t.spent| + 1;
      assert |t.restarted + {|l.s.flights|}| == |t.restarted| + 1;
    }
  }

  lemma ReleasedOnes(s: State, s': State, f: nat, called: set<nat>)
    requires s'.flights == s.flights && s.refreshPromise == Some(f) && s'.refreshPromise.None? && f < |s.flights|
    ensures var failed := s.flights[f].Rejected?;
      && FailedOnes(s) <= FailedOnes(s')
      && |FailedOnes(s')| == |FailedOnes(s)| + (if failed then 1 else 0)
      && |FailedOnes(s') * called| == |FailedOnes(s) * called| + if failed && f in called then 1 else 0
  {
    assert f !in FailedOnes(s);
    if s.flights[f].Rejected? {
      assert FailedOnes(s') == FailedOnes(s) + {f};
      OneMore(FailedOnes(s), f, called);
    } else {
      assert FailedOnes(s') == FailedOnes(s);
    }
  }

  lemma OneMore(a: set<nat>, f: nat, called: set<nat>)
    requires f !in a
    ensures |a + {f}| == |a| + 1
    ensures |(a + {f}) * called| == |a * called| + if f in called then 1 else 0
  {
    assert (a + {f}) * called == a * called + if f in called then {f} else {};
  }

  lemma ReleaseBalanced(s: State, s': State, f: nat, t: Ledger)
    requires Balanced(s, t) && s.refreshPromise == Some(f) && f < |s.flights| && !s.flights[f].Pending?
    requires s'.flights == s.flights && s'.refreshPromise.None? && s'.storage == StorageAfter(s.flights[f])
    requires s'.expiredCalls == s.expiredCalls + if s.flights[f].Rejected? then 1 else 0
    ensures Balanced(s', if s.flights[f].Resolved? then t.(sessions := t.sessions + 1) else t)
  {
    ReleasedOnes(s, s', f, t.called);
    hide FailedOnes;
  }

  lemma ResumeBalanced(l: Loop, t: Ledger)
    requires Fits(l) && Balanced(l.s, t) && l.queue != [] && l.queue[0].Resumes?
    ensures Balanced(LoopStep(l, NextJob).s, Booked(l, NextJob, t))
  {
    FirstReady(l);
    hide SingleFlight, Balanced, Step;
    var job := l.queue[0];
    ResumedState(l.s, job);
    hide Fits;
    var s' := Step(l.s, ResumeEvent(job));
    if job.owner {
      ReleaseBalanced(l.s, s', job.flight, t);
    } else {
      SameBalanced(l.s, s', t);
    }
  }

  lemma SameOnes(s: State, s': State)
    requires s'.flights == s.flights && s'.refreshPromise == s.refreshPromise
    ensures FailedOnes(s') == FailedOnes(s)
  {
  }

  lemma OutsideBalanced(l: Loop, e: Event, t: Ledger)
    requires Fits(l) && Balanced(l.s, t) && Enabled(l.s, e) && (e.ServerAnswers? || e.LoginDone? || e.Clear?)
    ensures Balanced(LoopStep(l, Outside(e)).s, Booked(l, Outside(e), t))
  {
    hide HasJob, OneEach, FailedOnes;
    SameFailed(l.s, Step(l.s, e));
  }

  lemma LoopStepBalanced(l: Loop, e: LoopEvent, t: Ledger)
    requires Fits(l) && Ordered(l, t) && Balanced(l.s, t)
    ensures Balanced(LoopStep(l, e).s, Booked(l, e, t))
  {
    hide Fits, Ordered, Balanced, Step, Enabled;
    match e {
      case Outside(outside) =>
        if IsOutside(outside) && Enabled(l.s, outside) {
          if outside.Call? {
            CallBalanced(l, t, outside.freshness);
          } else {
            OutsideBalanced(l, outside, t);
          }
        } else {
          NotEnabledBooked(l, outside, t);
        }
      case NextJob =>
        if l.queue != [] {
          match l.queue[0] {
            case Subscribes(_, _, _) =>
            case Resumes(_, _, _, _, _) => ResumeBalanced(l, t);
            case Retries(_, _, _) => RetryBalanced(l, t);
          }
        }
    }
  }

  lemma NotEnabledBooked(l: Loop, e: Event, t: Ledger)
    requires !IsOutside(e) || !Enabled(l.s, e)
    ensures Booked(l, Outside(e), t) == t
  {
  }

  // ----- every run of the loop -----

  lemma {:induction false} EveryLoopKeeps(stored: Option<AuthTokens>, events: seq<LoopEvent>)
    ensures var l, t := LoopAfter(stored, events), Books(stored, events);
      Fits(l) && Ordered(l, t) && Balanced(l.s, t)
  {
    hide Fits, Ordered, Balanced;
    if events == [] {
      StartKeeps(stored);
    } else {
      var (front, last) := (events[..|events| - 1], events[|events| - 1]);
      EveryLoopKeeps(stored, front);
      LoopStepFits(LoopAfter(stored, front), last);
      LoopStepOrdered(LoopAfter(stored, front), last, Books(stored, front));
      LoopStepBalanced(LoopAfter(stored, front), last, Books(stored, front));
    }
  }

  lemma StartKeeps(stored: Option<AuthTokens>)
    ensures var l, t := LoopAfter(stored, []), Books(stored, []);
      Fits(l) && Ordered(l, t) && Balanced(l.s, t)
  {
    StartFits(stored);
    assert FailedOnes(Start(stored)) == {};
  }

  // ----- how often the callback runs -----

  lemma FewerThan(spent: set<Group>, failed: set<nat>, late: set<nat>)
    requires forall g <- spent :: if g.late then g.flight in late else g.flight in failed
    ensures |spent| <= |failed| + |late|
    decreases |spent|
  {
    if g :| g in spent {
      var rest := spent - {g};
      if g.late {
        forall h <- rest
          ensures if h.late then h.flight in late - {g.flight} else h.flight in failed
        {
          assert h.late && h.flight == g.flight ==> h == g;
        }
        FewerThan(rest, failed, late - {g.flight});
      } else {
        forall h <- rest
          ensures if h.late then h.flight in late else h.flight in failed - {g.flight}
        {
          assert !h.late && h.flight == g.flight ==> h == g;
        }
        FewerThan(rest, failed - {g.flight}, late);
      }
    }
  }

  lemma Larger(a: set<nat>, b: set<nat>)
    requires a <= b
    ensures |a| <= |b|
  {
    if a != {} {
      var x :| x in a;
      Larger(a - {x}, b - {x});
    }
  }

  /** The callback runs at most twice for each failed flight that some call started or joined, and a third time only
      when a call joined it after it had settled; and such flights are no more than the times that tokens came into
      the storage. Retries start only one flight for all the others. */
  lemma CallbacksBounded(stored: Option<AuthTokens>, events: seq<LoopEvent>)
    ensures var s, t := LoopAfter(stored, events).s, Books(stored, events);
      && s.expiredCalls <= 2 * |FailedOnes(s) * t.called| + |FailedOnes(s) * t.late|
      && |FailedOnes(s) * t.called| <= t.sessions
      && s.expiredCalls <= 3 * t.sessions
  {
    hide *;
    EveryLoopKeeps(stored, events);
    BalancedBounds(LoopAfter(stored, events).s, Books(stored, events));
  }

  lemma BalancedBounds(s: State, t: Ledger)
    requires Balanced(s, t)
    ensures s.expiredCalls <= 2 * |FailedOnes(s) * t.called| + |FailedOnes(s) * t.late|
    ensures |FailedOnes(s) * t.late| <= |FailedOnes(s) * t.called| <= t.sessions
  {
    var all := FailedOnes(s);
    assert forall f <- all :: f < |s.flights|;
    hide FailedOnes;
    var failed, late, others := all * t.called, all * t.late, all - t.called;
    FewerThan(t.spent, failed, late);
    assert all == failed + others && failed !! others;
    Larger(others, t.restarted);
    Larger(late, failed);
  }

  // ----- and that it can run so often -----

  lemma LoopAfterStep(stored: Option<AuthTokens>, events: seq<LoopEvent>, e: LoopEvent)
    ensures LoopAfter(stored, events + [e]) == LoopStep(LoopAfter(stored, events), e)
  {
    hide LoopStep;
    assert (events + [e])[..|events|] == events;
  }

  const SERVER_FAILS := Rejected(RequestFailed(""))

  /** `k` callers wait for one refresh. */
  lemma WaitTogether(stored: Option<AuthTokens>, k: nat) returns (events: seq<LoopEvent>)
    requires k > 0 && stored.Some? && stored.value.refresh != ""
    ensures var l := LoopAfter(stored, events);
      && l.s.storage == stored
      && l.s.refreshPromise == Some(0) && l.s.expiredCalls == 0 && l.s.flights == [Pending]
      && |l.s.callers| == k && (forall c :: 0 <= c < k ==> l.s.callers[c] == Waiting(0, c == 0, false))
      && l.queue == []
      && |l.reactions| == k && (forall c :: 0 <= c < k ==> l.reactions[c] == Resumes(c, 0, c == 0, true, false))
  {
    hide LoopAfter;
    events := [];
    StartsEmpty(stored);
    assert RefreshTokenOf(stored)[stored.value.refresh] == 1;
    for i := 0 to k
      invariant var l := LoopAfter(stored, events);
        && l.s.storage == stored && l.s.expiredCalls == 0
        && l.s.refreshPromise == (if i == 0 then None else Some(0)) && l.s.flights == (if i == 0 then [] else [Pending])
        && |l.s.callers| == i && (forall c :: 0 <= c < i ==> l.s.callers[c] == Waiting(0, c == 0, false))
        && |l.queue| == (if i == 0 then 0 else i - 1)
        && (forall j :: 0 <= j < |l.queue| ==> l.queue[j] == Subscribes(j + 1, 0, true))
        && l.reactions == if i == 0 then [] else [Resumes(0, 0, true, true, false)]
    {
      LoopAfterStep(stored, events, Outside(Call(Expiring)));
      events := events + [Outside(Call(Expiring))];
    }
    for i := 1 to k
      invariant var l := LoopAfter(stored, events);
        && l.s.storage == stored
        && l.s.expiredCalls == 0 && l.s.refreshPromise == Some(0) && l.s.flights == [Pending]
        && |l.s.callers| == k && (forall c :: 0 <= c < k ==> l.s.callers[c] == Waiting(0, c == 0, false))
        && |l.queue| == k - i && (forall j :: 0 <= j < k - i ==> l.queue[j] == Subscribes(i + j, 0, true))
        && |l.reactions| == i && (forall c :: 0 <= c < i ==> l.reactions[c] == Resumes(c, 0, c == 0, true, false))
    {
      LoopAfterStep(stored, events, NextJob);
      events := events + [NextJob];
    }
  }

  lemma StartsEmpty(stored: Option<AuthTokens>)
    ensures LoopAfter(stored, []) == LoopStart(stored)
  {
  }

  /** The server fails it, and all of them resume. */
  lemma FailTogether(stored: Option<AuthTokens>, k: nat) returns (events: seq<LoopEvent>)
    requires k > 0 && stored.Some? && stored.value.refresh != ""
    ensures var l := LoopAfter(stored, events);
      && l.s.storage.None? && l.s.refreshPromise.None? && l.s.expiredCalls == 1 && l.s.flights == [SERVER_FAILS]
      && |l.s.callers| == k && (forall c :: 0 <= c < k ==> l.s.callers[c].Retrying?)
      && l.reactions == []
      && |l.queue| == k && (forall c :: 0 <= c < k ==> l.queue[c] == Retries(c, 0, false))
  {
    hide LoopAfter;
    events := WaitTogether(stored, k);
    var answer := Outside(ServerAnswers(0, SERVER_FAILS));
    LoopAfterStep(stored, events, answer);
    events := events + [answer];
    for i := 0 to k
      invariant var l := LoopAfter(stored, events);
        && l.s.flights == [SERVER_FAILS] && l.reactions == []
        && l.s.refreshPromise == (if i == 0 then Some(0) else None) && (i > 0 ==> l.s.storage.None?)
        && l.s.expiredCalls == (if i == 0 then 0 else 1)
        && |l.s.callers| == k
        && (forall c :: 0 <= c < k ==> l.s.callers[c] == if c < i then Retrying else Waiting(0, c == 0, false))
        && |l.queue| == k
        && (forall j :: 0 <= j < k - i ==> l.queue[j] == Resumes(i + j, 0, i + j == 0, true, false))
        && (forall j :: k - i <= j < k ==> l.queue[j] == Retries(j - (k - i), 0, false))
    {
      LoopAfterStep(stored, events, NextJob);
      events := events + [NextJob];
    }
  }

  lemma RetryStarts(l: Loop)
    requires l.queue != [] && l.queue[0].Retries? && l.s.storage.None? && l.s.refreshPromise.None?
    requires l.queue[0].caller < |l.s.callers| && l.s.callers[l.queue[0].caller].Retrying?
    ensures var c, y, l' := l.queue[0].caller, |l.s.flights|, LoopStep(l, NextJob);
      && l'.queue == l.queue[1..] + [Resumes(c, y, true, false, false)] && l'.reactions == l.reactions
      && l'.s.storage.None? && l'.s.refreshPromise == Some(y) && l'.s.expiredCalls == l.s.expiredCalls
      && l'.s.flights == l.s.flights + [Rejected(NoRefreshToken)]
      && l'.s.callers == l.s.callers[c := Waiting(y, true, true)]
  {
  }

  lemma RetryJoins(l: Loop)
    requires l.queue != [] && l.queue[0].Retries? && l.s.refreshPromise.Some?
    requires l.queue[0].caller < |l.s.callers| && l.s.callers[l.queue[0].caller].Retrying?
    ensures var c, y := l.queue[0].caller, l.s.refreshPromise.value;
      LoopStep(l, NextJob) == l.(s := l.s.(callers := l.s.callers[c := Waiting(y, false, true)]),
                                 queue := l.queue[1..] + [Subscribes(c, y, false)])
  {
  }

  /** `i` of `k` callers have retried. */
  ghost predicate Rejoined(l: Loop, k: nat, i: nat) {
    && 0 < i <= k
    && l.s.expiredCalls == 1 && l.reactions == []
    && l.s.refreshPromise == Some(1) && l.s.flights == [SERVER_FAILS, Rejected(NoRefreshToken)]
    && |l.s.callers| == k
    && (forall c :: 0 <= c < k ==> l.s.callers[c] == if c < i then Waiting(1, c == 0, true) else Retrying)
    && |l.queue| == k
    && (forall j :: 0 <= j < k - i ==> l.queue[j] == Retries(i + j, 0, false))
    && l.queue[k - i] == Resumes(0, 1, true, false, false)
    && (forall j :: k - i < j < k ==> l.queue[j] == Subscribes(j - (k - i), 1, false))
  }

  lemma RejoinedStep(l: Loop, k: nat, i: nat)
    requires Rejoined(l, k, i) && i < k
    ensures Rejoined(LoopStep(l, NextJob), k, i + 1)
  {
    RetryJoins(l);
    hide LoopStep;
    var q := LoopStep(l, NextJob).queue;
    assert forall j :: 0 <= j < k - 1 ==> q[j] == l.queue[j + 1];
  }

  /** The first of them starts another refresh, which finds no refresh token, and the others join it. */
  lemma RetryTogether(stored: Option<AuthTokens>, k: nat) returns (events: seq<LoopEvent>)
    requires k > 0 && stored.Some? && stored.value.refresh != ""
    ensures var l := LoopAfter(stored, events);
      && l.s.refreshPromise == Some(1) && l.s.expiredCalls == 1
      && l.s.flights == [SERVER_FAILS, Rejected(NoRefreshToken)]
      && |l.s.callers| == k && (forall c :: 0 <= c < k ==> l.s.callers[c] == Waiting(1, c == 0, true))
      && l.reactions == []
      && |l.queue| == k && l.queue[0] == Resumes(0, 1, true, false, false)
      && (forall c :: 1 <= c < k ==> l.queue[c] == Subscribes(c, 1, false))
  {
    hide LoopAfter, LoopStep;
    events := FailTogether(stored, k);
    RetryStarts(LoopAfter(stored, events));
    LoopAfterStep(stored, events, NextJob);
    events := events + [NextJob];
    for i := 1 to k
      invariant Rejoined(LoopAfter(stored, events), k, i)
    {
      RejoinedStep(LoopAfter(stored, events), k, i);
      LoopAfterStep(stored, events, NextJob);
      events := events + [NextJob];
    }
  }

  /** When `k` callers wait for a refresh that the server fails, the callback runs twice, however many they are: all
      of them join the one refresh that the first to retry starts, and end with its error, not the server's. */
  lemma CallbacksReached(stored: Option<AuthTokens>, k: nat) returns (events: seq<LoopEvent>)
    requires k > 0 && stored.Some? && stored.value.refresh != ""
    ensures var l := LoopAfter(stored, events);
      && l.queue == [] && l.reactions == []
      && l.s.flights == [SERVER_FAILS, Rejected(NoRefreshToken)]
      && |l.s.callers| == k && (forall c :: 0 <= c < k ==> l.s.callers[c] == Failed(NoRefreshToken))
      && l.s.expiredCalls == 2
  {
    hide LoopAfter;
    events := RetryTogether(stored, k);
    LoopAfterStep(stored, events, NextJob);
    events := events + [NextJob];
    for i := 1 to k
      invariant var l := LoopAfter(stored, events);
        && l.s.refreshPromise.None? && l.s.expiredCalls == 2 && l.reactions == []
        && l.s.flights == [SERVER_FAILS, Rejected(NoRefreshToken)]
        && |l.s.callers| == k && l.s.callers[0] == Failed(NoRefreshToken)
        && (forall c :: 1 <= c < k ==> l.s.callers[c] == Waiting(1, false, true))
        && |l.queue| == k - 1
        && (forall j :: 0 <= j < k - i ==> l.queue[j] == Subscribes(i + j, 1, false))
        && (forall j :: k - i <= j < k - 1 ==> l.queue[j] == Resumes(j - (k - i) + 1, 1, false, false, true))
    {
      LoopAfterStep(stored, events, NextJob);
      events := events + [NextJob];
    }
    for i := 1 to k
      invariant var l := LoopAfter(stored, events);
        && l.s.expiredCalls == 2 && l.reactions == []
        && l.s.flights == [SERVER_FAILS, Rejected(NoRefreshToken)]
        && |l.s.callers| == k
        && (forall c :: 0 <= c < k ==>
              l.s.callers[c] == if c < i then Failed(NoRefreshToken) else Waiting(1, false, true))
        && |l.queue| == k - i
        && (forall j :: 0 <= j < k - i ==> l.queue[j] == Resumes(i + j, 1, false, false, true))
    {
      LoopAfterStep(stored, events, NextJob);
      events := events + [NextJob];
    }
  }

  lemma Go(stored: Option<AuthTokens>, events: seq<LoopEvent>, e: LoopEvent) returns (more: seq<LoopEvent>)
    ensures more == events + [e] && LoopAfter(stored, more) == LoopStep(LoopAfter(stored, events), e)
  {
    LoopAfterStep(stored, events, e);
    more := events + [e];
  }

  /** One caller waits, the server fails the refresh, and another call comes before the owner resumes. */
  lemma CallsLate(stored: Option<AuthTokens>) returns (events: seq<LoopEvent>)
    requires stored.Some? && stored.value.refresh != ""
    ensures var l := LoopAfter(stored, events);
      && l.queue == [Resumes(0, 0, true, true, false), Subscribes(1, 0, true)] && l.reactions == []
      && l.s.refreshPromise == Some(0) && l.s.flights == [SERVER_FAILS]
      && l.s.callers == [Waiting(0, true, false), Waiting(0, false, false)] && l.s.expiredCalls == 0
  {
    hide LoopAfter;
    events := WaitTogether(stored, 1);
    assert LoopAfter(stored, events).reactions == [Resumes(0, 0, true, true, false)];
    events := Go(stored, events, Outside(ServerAnswers(0, SERVER_FAILS)));
    assert LoopAfter(stored, events).queue == [Resumes(0, 0, true, true, false)];
    events := Go(stored, events, Outside(Call(Expiring)));
  }

  lemma ResumesLate(stored: Option<AuthTokens>) returns (events: seq<LoopEvent>)
    requires stored.Some? && stored.value.refresh != ""
    ensures var l := LoopAfter(stored, events);
      && l.queue == [Retries(0, 0, false), Resumes(1, 0, false, true, true)] && l.reactions == []
      && l.s.storage.None? && l.s.refreshPromise.None? && l.s.flights == [SERVER_FAILS]
      && l.s.callers == [Retrying, Waiting(0, false, false)] && l.s.expiredCalls == 1
  {
    hide LoopAfter;
    events := CallsLate(stored);
    events := Go(stored, events, NextJob);
    assert LoopAfter(stored, events).queue == [Subscribes(1, 0, true), Retries(0, 0, false)];
    events := Go(stored, events, NextJob);
  }

  lemma RetriesLate(stored: Option<AuthTokens>) returns (events: seq<LoopEvent>)
    requires stored.Some? && stored.value.refresh != ""
    ensures var l := LoopAfter(stored, events);
      && l.queue == [Retries(1, 0, true)] && l.reactions == []
      && l.s.storage.None? && l.s.refreshPromise.None?
      && l.s.flights == [SERVER_FAILS, Rejected(NoRefreshToken)]
      && l.s.callers == [Failed(NoRefreshToken), Retrying] && l.s.expiredCalls == 2
  {
    hide LoopAfter;
    events := ResumesLate(stored);
    events := Go(stored, events, NextJob);
    assert LoopAfter(stored, events).queue == [Resumes(1, 0, false, true, true), Resumes(0, 1, true, false, false)];
    events := Go(stored, events, NextJob);
    assert LoopAfter(stored, events).queue == [Resumes(0, 1, true, false, false), Retries(1, 0, true)];
    events := Go(stored, events, NextJob);
  }

  /** Such a call joins the refresh late and so retries late, when the other's retry is over: then the callback runs a
      third time. */
  lemma LateCallAdds(stored: Option<AuthTokens>) returns (events: seq<LoopEvent>)
    requires stored.Some? && stored.value.refresh != ""
    ensures var l := LoopAfter(stored, events);
      && l.queue == [] && l.reactions == []
      && l.s.flights == [SERVER_FAILS, Rejected(NoRefreshToken), Rejected(NoRefreshToken)]
      && l.s.callers == [Failed(NoRefreshToken), Failed(NoRefreshToken)]
      && l.s.expiredCalls == 3
  {
    hide LoopAfter;
    events := RetriesLate(stored);
    events := Go(stored, events, NextJob);
    assert LoopAfter(stored, events).queue == [Resumes(1, 2, true, false, false)];
    events := Go(stored, events, NextJob);
  }
}
