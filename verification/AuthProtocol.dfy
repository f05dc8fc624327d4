/** Token refresh in the auth client (examples/native-auth-app/client.ts) as a protocol of the event loop: each event
    runs one piece of code between two awaits. */
module AuthProtocol {
  import opened Options

  /** A missing refresh token is the empty string, as both are falsy in the source. */
  datatype AuthTokens = AuthTokens(access: string, refresh: string)

  datatype Error = NotAuthenticated | NoRefreshToken | RequestFailed(detail: string)

  /** A refresh promise. */
  datatype Outcome = Pending | Resolved(tokens: AuthTokens) | Rejected(error: Error)

  /** What decoding the stored access token says. */
  datatype Freshness = Fresh | Expiring | Undecodable

  /** A call of `getValidTokens`: suspended on a flight it started (`owner`) or joined; about to refresh again, as its
      `catch` does when the first refresh fails; or done. */
  datatype Caller =
    | Waiting(flight: nat, owner: bool, lastTry: bool)
    | Retrying
    | Returned(tokens: AuthTokens)
    | Failed(error: Error)

  /** What happened: a caller got a flight's outcome; an owner released a flight, leaving `storage`. */
  datatype LogEntry =
    | Delivered(caller: nat, flight: nat, outcome: Outcome, lastTry: bool)
    | Released(flight: nat, outcome: Outcome, storage: Option<AuthTokens>)

  datatype State = State(
    storage: Option<AuthTokens>,
    refreshPromise: Option<nat>,
    flights: seq<Outcome>,
    callers: seq<Caller>,
    expiredCalls: nat,
    sent: multiset<string>,
    issued: multiset<string>,
    log: seq<LogEntry>)

  datatype Event =
    | Call(freshness: Freshness)
    | ServerAnswers(flight: nat, outcome: Outcome)
    | OwnerResumes(caller: nat)
    | FollowerResumes(caller: nat)
    | Retry(caller: nat)
    | LoginDone(tokens: AuthTokens)
    | Clear

  // ----- the steps -----

  function RefreshTokenOf(stored: Option<AuthTokens>): multiset<string> {
    if stored.Some? && stored.value.refresh != "" then multiset{stored.value.refresh} else multiset{}
  }

  /** `refreshTokens`, up to its await: join the flight under way, or start one with the stored refresh token. */
  function Refresh(s: State, c: nat, lastTry: bool): State
    requires c < |s.callers|
  {
    match s.refreshPromise
    case Some(f) => s.(callers := s.callers[c := Waiting(f, false, lastTry)])
    case None =>
      var token := RefreshTokenOf(s.storage);
      var flight := if token == multiset{} then Rejected(NoRefreshToken) else Pending;
      s.(refreshPromise := Some(|s.flights|),
         flights := s.flights + [flight],
         sent := s.sent + token,
         callers := s.callers[c := Waiting(|s.flights|, true, lastTry)])
  }

  predicate Enabled(s: State, e: Event) {
    match e
    case ServerAnswers(f, outcome) =>
      && f < |s.flights| && s.flights[f].Pending?
      && (outcome.Resolved? || (outcome.Rejected? && outcome.error.RequestFailed?))
    case OwnerResumes(c) =>
      && c < |s.callers| && s.callers[c].Waiting? && s.callers[c].owner
      && s.callers[c].flight < |s.flights| && !s.flights[s.callers[c].flight].Pending?
    case FollowerResumes(c) =>
      && c < |s.callers| && s.callers[c].Waiting? && !s.callers[c].owner
      && s.callers[c].flight < |s.flights| && !s.flights[s.callers[c].flight].Pending?
    case Retry(c) => c < |s.callers| && s.callers[c].Retrying?
    case _ => true
  }

  /** A caller whose flight settled. */
  function Resumed(outcome: Outcome, lastTry: bool): Caller
    requires !outcome.Pending?
  {
    match outcome
    case Resolved(tokens) => Returned(tokens)
    case Rejected(error) => if lastTry then Failed(error) else Retrying
  }

  /** The storage an outcome calls for. */
  function StorageAfter(outcome: Outcome): Option<AuthTokens> {
    if outcome.Resolved? then Some(outcome.tokens) else None
  }

  /** One event; an event that cannot happen changes nothing. */
  function Step(s: State, e: Event): State {
    if !Enabled(s, e) then s else
    match e
    case Call(freshness) =>
      if s.storage.None? then s.(callers := s.callers + [Failed(NotAuthenticated)])
      else if freshness.Fresh? then s.(callers := s.callers + [Returned(s.storage.value)])
      else Refresh(s.(callers := s.callers + [Retrying]), |s.callers|, freshness.Undecodable?)
    case ServerAnswers(f, outcome) =>
      s.(flights := s.flights[f := outcome], issued := s.issued + RefreshTokenOf(StorageAfter(outcome)))
    case OwnerResumes(c) =>
      var f, lastTry := s.callers[c].flight, s.callers[c].lastTry;
      var outcome := s.flights[f];
      s.(storage := StorageAfter(outcome),
         refreshPromise := None,
         expiredCalls := s.expiredCalls + if outcome.Rejected? then 1 else 0,
         callers := s.callers[c := Resumed(outcome, lastTry)],
         log := s.log + [Released(f, outcome, StorageAfter(outcome)), Delivered(c, f, outcome, lastTry)])
    case FollowerResumes(c) =>
      var f, lastTry := s.callers[c].flight, s.callers[c].lastTry;
      s.(callers := s.callers[c := Resumed(s.flights[f], lastTry)],
         log := s.log + [Delivered(c, f, s.flights[f], lastTry)])
    case Retry(c) => Refresh(s, c, true)
    case LoginDone(tokens) => s.(storage := Some(tokens), issued := s.issued + RefreshTokenOf(Some(tokens)))
    case Clear => s.(storage := None)
  }

  /** A client that finds `stored` in its storage. */
  function Start(stored: Option<AuthTokens>): State {
    State(stored, None, [], [], 0, multiset{}, RefreshTokenOf(stored), [])
  }

  function RunFrom(s: State, events: seq<Event>): State {
    if events == [] then s else Step(RunFrom(s, events[..|events| - 1]), events[|events| - 1])
  }

  function After(stored: Option<AuthTokens>, events: seq<Event>): State {
    RunFrom(Start(stored), events)
  }

  // ----- what every step keeps -----

  ghost predicate IsOwner(s: State, c: nat, f: nat)
    requires c < |s.callers|
  {
    s.callers[c].Waiting? && s.callers[c].owner && s.callers[c].flight == f
  }

  /** The slot holds a flight exactly while one caller owns it; only that flight can be pending. */
  ghost predicate SingleFlight(s: State) {
    && (s.refreshPromise.Some? ==>
          && s.refreshPromise.value < |s.flights|
          && exists c :: 0 <= c < |s.callers| && IsOwner(s, c, s.refreshPromise.value))
    && (forall f :: 0 <= f < |s.flights| && s.flights[f].Pending? ==> s.refreshPromise == Some(f))
    && (forall c :: 0 <= c < |s.callers| && s.callers[c].Waiting? ==> s.callers[c].flight < |s.flights|)
    && (forall c :: 0 <= c < |s.callers| && s.callers[c].Waiting? && s.callers[c].owner ==>
          s.refreshPromise == Some(s.callers[c].flight))
    && (forall c, d :: 0 <= c < d < |s.callers| ==>
          !(s.callers[c].Waiting? && s.callers[c].owner && s.callers[d].Waiting? && s.callers[d].owner))
  }

  /** The refresh token that the next flight will send, if it is known already. */
  function Unspent(s: State): multiset<string> {
    match s.refreshPromise
    case None => RefreshTokenOf(s.storage)
    case Some(f) => if f < |s.flights| then RefreshTokenOf(StorageAfter(s.flights[f])) else multiset{}
  }

  /** Nothing is sent that was not issued, nor more often than it was issued. */
  ghost predicate Conserved(s: State) {
    s.sent + Unspent(s) <= s.issued
  }

  ghost predicate EntryHolds(s: State, entry: LogEntry) {
    match entry
    case Delivered(c, f, outcome, lastTry) =>
      && f < |s.flights| && s.flights[f] == outcome && !outcome.Pending? && c < |s.callers|
      && (outcome.Resolved? || lastTry ==> s.callers[c] == Resumed(outcome, lastTry))
    case Released(f, outcome, storage) =>
      && f < |s.flights| && s.flights[f] == outcome && !outcome.Pending?
      && s.refreshPromise != Some(f)
      && storage == StorageAfter(outcome)
  }

  /** How many times `f` was released. */
  function Releases(log: seq<LogEntry>, f: nat): nat {
    if log == [] then 0
    else
      var last := log[|log| - 1];
      Releases(log[..|log| - 1], f) + if last.Released? && last.flight == f then 1 else 0
  }

  function FailedReleases(log: seq<LogEntry>): nat {
    if log == [] then 0
    else
      var last := log[|log| - 1];
      FailedReleases(log[..|log| - 1]) + if last.Released? && last.outcome.Rejected? then 1 else 0
  }

  /** Every log entry tells the truth; each flight that gave up the slot was released once; the expiry callback ran
      once for each failed one. */
  ghost predicate Logged(s: State) {
    && (forall i :: 0 <= i < |s.log| ==> EntryHolds(s, s.log[i]))
    && (forall f :: 0 <= f < |s.flights| ==> Releases(s.log, f) == if s.refreshPromise == Some(f) then 0 else 1)
    && (forall f :: f >= |s.flights| ==> Releases(s.log, f) == 0)
    && s.expiredCalls == FailedReleases(s.log)
  }

  lemma RefreshKeepsSingleFlight(s: State, c: nat, lastTry: bool)
    requires SingleFlight(s) && c < |s.callers| && !s.callers[c].Waiting?
    ensures SingleFlight(Refresh(s, c, lastTry))
  {
    var s' := Refresh(s, c, lastTry);
    if s.refreshPromise.Some? {
      var o :| 0 <= o < |s.callers| && IsOwner(s, o, s.refreshPromise.value);
      assert IsOwner(s', o, s.refreshPromise.value);
    } else {
      assert IsOwner(s', c, |s.flights|);
    }
  }

  lemma AddedCallerKeepsSingleFlight(s: State, caller: Caller)
    requires SingleFlight(s) && !caller.Waiting?
    ensures SingleFlight(s.(callers := s.callers + [caller]))
  {
    var s' := s.(callers := s.callers + [caller]);
    if s.refreshPromise.Some? {
      var o :| 0 <= o < |s.callers| && IsOwner(s, o, s.refreshPromise.value);
      assert IsOwner(s', o, s.refreshPromise.value);
    }
  }

  lemma ResumeKeepsSingleFlight(s: State, e: Event)
    requires SingleFlight(s) && Enabled(s, e) && (e.OwnerResumes? || e.FollowerResumes?)
    ensures SingleFlight(Step(s, e))
  {
    var s' := Step(s, e);
    if e.FollowerResumes? && s.refreshPromise.Some? {
      var o :| 0 <= o < |s.callers| && IsOwner(s, o, s.refreshPromise.value);
      assert IsOwner(s', o, s.refreshPromise.value);
    }
  }

  lemma StepKeepsSingleFlight(s: State, e: Event)
    requires SingleFlight(s)
    ensures SingleFlight(Step(s, e))
  {
    var s' := Step(s, e);
    if Enabled(s, e) {
      match e
      case Call(freshness) =>
        AddedCallerKeepsSingleFlight(s, Retrying);
        if s.storage.Some? && !freshness.Fresh? {
          RefreshKeepsSingleFlight(s.(callers := s.callers + [Retrying]), |s.callers|, freshness.Undecodable?);
        } else {
          AddedCallerKeepsSingleFlight(s, s'.callers[|s.callers|]);
        }
      case Retry(c) => RefreshKeepsSingleFlight(s, c, true);
      case OwnerResumes(_) => ResumeKeepsSingleFlight(s, e);
      case FollowerResumes(_) => ResumeKeepsSingleFlight(s, e);
      case _ =>
        if s.refreshPromise.Some? {
          var o :| 0 <= o < |s.callers| && IsOwner(s, o, s.refreshPromise.value);
          assert IsOwner(s', o, s.refreshPromise.value);
        }
    }
  }

  lemma RefreshKeepsConserved(s: State, c: nat, lastTry: bool)
    requires Conserved(s) && c < |s.callers|
    requires s.refreshPromise.Some? ==> s.refreshPromise.value < |s.flights|
    ensures Conserved(Refresh(s, c, lastTry))
  {
    var s' := Refresh(s, c, lastTry);
    if s.refreshPromise.None? {
      assert Unspent(s') == multiset{};
      assert s'.sent + Unspent(s') == s.sent + Unspent(s);
    }
  }

  lemma LoginKeepsConserved(s: State, tokens: AuthTokens)
    requires Conserved(s)
    ensures Conserved(Step(s, LoginDone(tokens)))
  {
    var s' := Step(s, LoginDone(tokens));
    assert s.sent <= s.issued;
    if s.refreshPromise.None? {
      assert Unspent(s') == RefreshTokenOf(Some(tokens));
    } else {
      assert Unspent(s') == Unspent(s);
    }
  }

  lemma AnswerKeepsConserved(s: State, f: nat, outcome: Outcome)
    requires SingleFlight(s) && Conserved(s) && Enabled(s, ServerAnswers(f, outcome))
    ensures Conserved(Step(s, ServerAnswers(f, outcome)))
  {
    var s' := Step(s, ServerAnswers(f, outcome));
    assert Unspent(s) == multiset{};
    assert Unspent(s') == RefreshTokenOf(StorageAfter(outcome));
  }

  lemma ResumeKeepsConserved(s: State, e: Event)
    requires SingleFlight(s) && Conserved(s) && Enabled(s, e) && (e.OwnerResumes? || e.FollowerResumes?)
    ensures Conserved(Step(s, e))
  {
    assert Unspent(Step(s, e)) == Unspent(s);
  }

  lemma ClearKeepsConserved(s: State)
    requires Conserved(s)
    ensures Conserved(Step(s, Clear))
  {
    assert Unspent(Step(s, Clear)) <= Unspent(s);
  }

  lemma StepKeepsConserved(s: State, e: Event)
    requires SingleFlight(s) && Conserved(s)
    ensures Conserved(Step(s, e))
  {
    if Enabled(s, e) {
      match e
      case Call(freshness) =>
        if s.storage.Some? && !freshness.Fresh? {
          RefreshKeepsConserved(s.(callers := s.callers + [Retrying]), |s.callers|, freshness.Undecodable?);
        }
      case Retry(c) => RefreshKeepsConserved(s, c, true);
      case ServerAnswers(f, outcome) => AnswerKeepsConserved(s, f, outcome);
      case OwnerResumes(_) => ResumeKeepsConserved(s, e);
      case FollowerResumes(_) => ResumeKeepsConserved(s, e);
      case LoginDone(tokens) => LoginKeepsConserved(s, tokens);
      case Clear => ClearKeepsConserved(s);
    }
  }

  lemma ReleasesAppend(log: seq<LogEntry>, entry: LogEntry, f: nat)
    ensures Releases(log + [entry], f) ==
            Releases(log, f) + if entry.Released? && entry.flight == f then 1 else 0
    ensures FailedReleases(log + [entry]) ==
            FailedReleases(log) + if entry.Released? && entry.outcome.Rejected? then 1 else 0
  {
    assert (log + [entry])[..|log|] == log;
  }

  lemma RefreshKeepsLogged(s: State, c: nat, lastTry: bool)
    requires SingleFlight(s) && Logged(s) && c < |s.callers| && s.callers[c].Retrying?
    ensures Logged(Refresh(s, c, lastTry))
  {
  }

  lemma ResumeKeepsLogged(s: State, e: Event)
    requires SingleFlight(s) && Logged(s) && Enabled(s, e) && (e.OwnerResumes? || e.FollowerResumes?)
    ensures Logged(Step(s, e))
  {
    hide Releases, FailedReleases;
    var s' := Step(s, e);
    var f, lastTry := s.callers[e.caller].flight, s.callers[e.caller].lastTry;
    var delivered := Delivered(e.caller, f, s.flights[f], lastTry);
    var released := Released(f, s.flights[f], s'.storage);
    var log := if e.OwnerResumes? then s.log + [released] else s.log;
    assert s'.log == log + [delivered];
    forall g: nat
      ensures Releases(s'.log, g) == Releases(s.log, g) + if e.OwnerResumes? && g == f then 1 else 0
    {
      ReleasesAppend(log, delivered, g);
      ReleasesAppend(s.log, released, g);
    }
    ReleasesAppend(log, delivered, f);
    ReleasesAppend(s.log, released, f);
    forall i | 0 <= i < |s'.log|
      ensures EntryHolds(s', s'.log[i])
    {
      assert i < |s.log| ==> s'.log[i] == s.log[i];
    }
  }

  lemma AnswerKeepsLogged(s: State, f: nat, outcome: Outcome)
    requires SingleFlight(s) && Logged(s) && Enabled(s, ServerAnswers(f, outcome))
    ensures Logged(Step(s, ServerAnswers(f, outcome)))
  {
    hide Releases, FailedReleases;
    var s' := Step(s, ServerAnswers(f, outcome));
    forall i | 0 <= i < |s.log|
      ensures EntryHolds(s', s.log[i])
    {
      assert EntryHolds(s, s.log[i]);
    }
  }

  lemma StepKeepsLogged(s: State, e: Event)
    requires SingleFlight(s) && Logged(s)
    ensures Logged(Step(s, e))
  {
    hide Releases, FailedReleases, SingleFlight;
    if Enabled(s, e) {
      match e
      case Call(freshness) =>
        var s1 := s.(callers := s.callers + [Retrying]);
        assert Logged(s1);
        if s.storage.Some? && !freshness.Fresh? {
          AddedCallerKeepsSingleFlight(s, Retrying);
          RefreshKeepsLogged(s1, |s.callers|, freshness.Undecodable?);
        }
      case Retry(c) => RefreshKeepsLogged(s, c, true);
      case ServerAnswers(f, outcome) => AnswerKeepsLogged(s, f, outcome);
      case OwnerResumes(_) => ResumeKeepsLogged(s, e);
      case FollowerResumes(_) => ResumeKeepsLogged(s, e);
      case _ =>
    }
  }

  ghost predicate Inv(s: State) {
    SingleFlight(s) && Conserved(s) && Logged(s)
  }

  /** Whatever calls, answers, logins and logouts come, in whatever order. */
  lemma {:induction false} EveryRunKeeps(stored: Option<AuthTokens>, events: seq<Event>)
    ensures Inv(After(stored, events))
  {
    if events != [] {
      var (front, last) := (events[..|events| - 1], events[|events| - 1]);
      EveryRunKeeps(stored, front);
      StepKeepsSingleFlight(After(stored, front), last);
      StepKeepsConserved(After(stored, front), last);
      StepKeepsLogged(After(stored, front), last);
    }
  }

  // ----- what follows for every run -----

  /** At most one refresh request is outstanding, and it is the one in the slot. */
  lemma OneRequestOutstanding(stored: Option<AuthTokens>, events: seq<Event>, f: nat, g: nat)
    requires var s := After(stored, events);
      f < |s.flights| && g < |s.flights| && s.flights[f].Pending? && s.flights[g].Pending?
    ensures f == g && After(stored, events).refreshPromise == Some(f)
  {
    EveryRunKeeps(stored, events);
  }

  /** A refresh token is sent to `/refresh` at most as often as it was issued. */
  lemma SentAtMostAsIssued(stored: Option<AuthTokens>, events: seq<Event>, token: string)
    ensures After(stored, events).sent[token] <= After(stored, events).issued[token]
  {
    EveryRunKeeps(stored, events);
    var s := After(stored, events);
    assert (s.sent + Unspent(s))[token] <= s.issued[token];
  }

  /** So if the server never issues one twice, none is spent twice; and while no refresh is under way, the stored
      one was not sent yet. */
  lemma SpentOnce(stored: Option<AuthTokens>, events: seq<Event>, token: string)
    requires After(stored, events).issued[token] <= 1
    ensures After(stored, events).sent[token] <= 1
    ensures var s := After(stored, events);
      s.refreshPromise.None? && s.storage.Some? && s.storage.value.refresh == token != "" ==> s.sent[token] == 0
  {
    EveryRunKeeps(stored, events);
    var s := After(stored, events);
    SentAtMostAsIssued(stored, events, token);
    assert (s.sent + Unspent(s))[token] <= s.issued[token];
  }

  /** All who got a flight's outcome got the same one; what an owner left in the storage when it released the slot
      is that outcome's tokens, or nothing; and each stays the caller's answer. */
  lemma JoinersAgree(stored: Option<AuthTokens>, events: seq<Event>, i: nat, j: nat)
    requires var log := After(stored, events).log;
      && i < |log| && j < |log| && log[i].flight == log[j].flight && log[i].Delivered?
    ensures var s := After(stored, events);
      && s.log[j].outcome == s.log[i].outcome
      && s.log[i].caller < |s.callers|
      && (s.log[j].Released? ==> s.log[j].storage == StorageAfter(s.log[i].outcome))
      && (s.log[i].outcome.Resolved? ==> s.callers[s.log[i].caller] == Returned(s.log[i].outcome.tokens))
      && (s.log[i].outcome.Rejected? && s.log[i].lastTry ==>
            s.callers[s.log[i].caller] == Failed(s.log[i].outcome.error))
  {
    EveryRunKeeps(stored, events);
    var s := After(stored, events);
    assert EntryHolds(s, s.log[i]) && EntryHolds(s, s.log[j]);
  }

  /** However many joined it, a flight that gave up the slot was released once; and the expiry callback ran as
      often as failed flights were released. */
  lemma FailureHandledOnce(stored: Option<AuthTokens>, events: seq<Event>, f: nat)
    requires f < |After(stored, events).flights|
    ensures var s := After(stored, events);
      && Releases(s.log, f) == (if s.refreshPromise == Some(f) then 0 else 1)
      && s.expiredCalls == FailedReleases(s.log)
  {
    EveryRunKeeps(stored, events);
  }

  /** The step that frees the slot leaves in the storage exactly what the flight's joiners get. */
  lemma StoredAtRelease(s: State, e: Event)
    requires Inv(s) && s.refreshPromise.Some? && Step(s, e).refreshPromise != s.refreshPromise
    ensures var f, s' := s.refreshPromise.value, Step(s, e);
      && s'.refreshPromise.None?
      && !s.flights[f].Pending?
      && s'.storage == StorageAfter(s.flights[f])
      && s'.expiredCalls == s.expiredCalls + if s.flights[f].Rejected? then 1 else 0
  {
  }

  /** The slot cannot stay taken: once the server answered, its owner can resume, which frees it. */
  lemma SlotIsReleased(stored: Option<AuthTokens>, events: seq<Event>)
    requires var s := After(stored, events);
      && s.refreshPromise.Some? && s.refreshPromise.value < |s.flights|
      && !s.flights[s.refreshPromise.value].Pending?
    ensures exists c :: Enabled(After(stored, events), OwnerResumes(c)) &&
                        Step(After(stored, events), OwnerResumes(c)).refreshPromise.None?
  {
    EveryRunKeeps(stored, events);
    var s := After(stored, events);
    var c: nat :| c < |s.callers| && IsOwner(s, c, s.refreshPromise.value);
    assert Enabled(s, OwnerResumes(c));
  }

  // ----- where the code does otherwise than it says -----

  /** A login, register or logout that ends while a refresh is under way is overtaken by what the server answers: the
      owner does not look at what happened meanwhile. `AuthRuns.LogoutLastsIff` and `AuthRuns.LoginLastsIff` say
      when it lasts. */
  lemma OverlapIsOvertaken(s: State, c: nat, e: Event, outcome: Outcome)
    requires SingleFlight(s) && c < |s.callers| && s.callers[c].Waiting? && s.callers[c].owner
    requires (e.Clear? || e.LoginDone?) && Enabled(s, ServerAnswers(s.callers[c].flight, outcome))
    ensures Step(Step(Step(s, e), ServerAnswers(s.callers[c].flight, outcome)), OwnerResumes(c)).storage ==
            StorageAfter(outcome)
  {
  }

  /** The `catch` in `getValidTokens` also catches a failed refresh, and refreshes again: one caller whose token
      decodes sees two flights fail, the callback twice, and the second flight's error; one whose token does not
      decode, one flight, the callback once, and the server's error. `AuthRuns.FailureEndsLastTry` and
      `AuthRuns.CallbacksCounted` are about all runs. */
  lemma FailureIsRetried(s: State, error: Error, freshness: Freshness)
    requires SingleFlight(s) && s.refreshPromise.None? && s.storage.Some? && s.storage.value.refresh != ""
    requires error.RequestFailed? && !freshness.Fresh?
    ensures var c, f := |s.callers|, |s.flights|;
      var s1 := Step(Step(Step(s, Call(freshness)), ServerAnswers(f, Rejected(error))), OwnerResumes(c));
      var s2 := Step(Step(s1, Retry(c)), OwnerResumes(c));
      && s2.sent == s1.sent == s.sent + multiset{s.storage.value.refresh}
      && if freshness.Undecodable? then
           s2 == s1 && s1.expiredCalls == s.expiredCalls + 1 && s1.callers[c] == Failed(error)
         else
           s2.expiredCalls == s.expiredCalls + 2 && s2.callers[c] == Failed(NoRefreshToken)
  {
  }
}
