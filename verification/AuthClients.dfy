/** `FraiseQLAuthClient` (examples/native-auth-app/client.ts), each method cut at its awaits: what runs between two of
    them is one method here, and is one step of the protocol. */
module AuthClients {
  import opened AuthProtocol
  import opened AuthRuns
  import opened Options

  class AuthClient {
    var storage: Option<AuthTokens>
    var refreshPromise: Option<nat>
    /** The event loop's side: the refresh promises made, and the suspended calls of `getValidTokens`. */
    var flights: seq<Outcome>
    var callers: seq<Caller>
    ghost var expiredCalls: nat
    ghost var sent: multiset<string>
    ghost var issued: multiset<string>
    ghost var log: seq<LogEntry>
    /** The run so far: what was stored when the client was made, and what happened since. */
    ghost var stored: Option<AuthTokens>
    ghost var events: seq<Event>

    ghost function View(): State
      reads this
    {
      State(storage, refreshPromise, flights, callers, expiredCalls, sent, issued, log)
    }

    /** The client is where the protocol is after its run. */
    ghost predicate Valid()
      reads this
    {
      View() == After(stored, events)
    }

    constructor (stored: Option<AuthTokens>)
      ensures Valid() && this.stored == stored && events == []
    {
      this.stored, events := stored, [];
      storage := stored;
      refreshPromise := None;
      flights, callers := [], [];
      expiredCalls, sent, issued, log := 0, multiset{}, RefreshTokenOf(stored), [];
    }

    method SetStoredTokens(tokens: Option<AuthTokens>)
      modifies this`storage
      ensures storage == tokens
    {
      storage := tokens;
    }

    method ClearAuth()
      modifies this`storage
      ensures storage == None
    {
      SetStoredTokens(None);
    }

    /** Sends the stored refresh token, or rejects at once when there is none. */
    method PerformTokenRefresh() returns (f: nat)
      modifies this`flights, this`sent
      ensures f == |old(flights)|
      ensures flights == old(flights) +
        [if RefreshTokenOf(storage) == multiset{} then Rejected(NoRefreshToken) else Pending]
      ensures sent == old(sent) + RefreshTokenOf(storage)
    {
      f := |flights|;
      if storage.None? || storage.value.refresh == "" {
        flights := flights + [Rejected(NoRefreshToken)];
      } else {
        sent := sent + multiset{storage.value.refresh};
        flights := flights + [Pending];
      }
    }

    /** `refreshTokens` up to its await, for caller `c`. */
    method RefreshTokens(c: nat, lastTry: bool)
      requires c < |callers|
      modifies this
      ensures View() == Refresh(old(View()), c, lastTry) && stored == old(stored) && events == old(events)
    {
      if refreshPromise.Some? {
        callers := callers[c := Waiting(refreshPromise.value, false, lastTry)];
        return;
      }
      var f := PerformTokenRefresh();
      refreshPromise := Some(f);
      callers := callers[c := Waiting(f, true, lastTry)];
    }

    /** `refreshTokens` after its await, in the caller that started the flight: store or clear, then free the slot. */
    method ResumeOwner(c: nat)
      requires Valid() && Enabled(View(), OwnerResumes(c))
      modifies this
      ensures View() == Step(old(View()), OwnerResumes(c))
      ensures refreshPromise == None
      ensures Valid() && stored == old(stored) && events == old(events) + [OwnerResumes(c)]
    {
      hide After, RefreshTokenOf;
      AfterStep(stored, events, OwnerResumes(c));
      events := events + [OwnerResumes(c)];
      var f, lastTry := callers[c].flight, callers[c].lastTry;
      match flights[f] {
        case Resolved(newTokens) =>
          SetStoredTokens(Some(newTokens));
          callers := callers[c := Returned(newTokens)];
        case Rejected(error) =>
          ClearAuth();
          expiredCalls := expiredCalls + 1;
          callers := callers[c := if lastTry then Failed(error) else Retrying];
      }
      refreshPromise := None;
      log := log + [Released(f, flights[f], storage), Delivered(c, f, flights[f], lastTry)];
    }

    method ResumeFollower(c: nat)
      requires Valid() && Enabled(View(), FollowerResumes(c))
      modifies this`callers, this`log, this`events
      ensures View() == Step(old(View()), FollowerResumes(c))
      ensures Valid() && stored == old(stored) && events == old(events) + [FollowerResumes(c)]
    {
      hide After, RefreshTokenOf;
      AfterStep(stored, events, FollowerResumes(c));
      events := events + [FollowerResumes(c)];
      var f, lastTry := callers[c].flight, callers[c].lastTry;
      log := log + [Delivered(c, f, flights[f], lastTry)];
      match flights[f] {
        case Resolved(newTokens) => callers := callers[c := Returned(newTokens)];
        case Rejected(error) => callers := callers[c := if lastTry then Failed(error) else Retrying];
      }
    }

    method GetValidTokens(freshness: Freshness) returns (c: nat)
      requires Valid()
      modifies this
      ensures c == |old(callers)| && View() == Step(old(View()), Call(freshness))
      ensures Valid() && stored == old(stored) && events == old(events) + [Call(freshness)]
    {
      hide After, RefreshTokenOf;
      AfterStep(stored, events, Call(freshness));
      events := events + [Call(freshness)];
      c := |callers|;
      if storage.None? {
        callers := callers + [Failed(NotAuthenticated)];
        return;
      }
      if freshness.Fresh? {
        callers := callers + [Returned(storage.value)];
        return;
      }
      callers := callers + [Retrying];
      RefreshTokens(c, freshness.Undecodable?);
    }

    /** The `catch` of `getValidTokens`. */
    method RetryAfterFailure(c: nat)
      requires Valid() && Enabled(View(), Retry(c))
      modifies this
      ensures View() == Step(old(View()), Retry(c))
      ensures Valid() && stored == old(stored) && events == old(events) + [Retry(c)]
    {
      hide After, RefreshTokenOf;
      AfterStep(stored, events, Retry(c));
      events := events + [Retry(c)];
      RefreshTokens(c, true);
    }

    /** `login` and `register`, once the server answered. */
    method Login(tokens: AuthTokens)
      requires Valid()
      modifies this
      ensures View() == Step(old(View()), LoginDone(tokens))
      ensures Valid() && stored == old(stored) && events == old(events) + [LoginDone(tokens)]
    {
      hide After, RefreshTokenOf;
      AfterStep(stored, events, LoginDone(tokens));
      events := events + [LoginDone(tokens)];
      issued := issued + RefreshTokenOf(Some(tokens));
      SetStoredTokens(Some(tokens));
    }

    /** `logout`, after its request, whether that succeeded or not. */
    method Logout()
      requires Valid()
      modifies this
      ensures View() == Step(old(View()), Clear)
      ensures Valid() && stored == old(stored) && events == old(events) + [Clear]
    {
      hide After, RefreshTokenOf;
      AfterStep(stored, events, Clear);
      events := events + [Clear];
      ClearAuth();
    }

    /** The environment: the server answers a pending refresh request. */
    method ServerAnswer(f: nat, outcome: Outcome)
      requires Valid() && Enabled(View(), ServerAnswers(f, outcome))
      modifies this`flights, this`issued, this`events
      ensures View() == Step(old(View()), ServerAnswers(f, outcome))
      ensures Valid() && stored == old(stored) && events == old(events) + [ServerAnswers(f, outcome)]
    {
      hide After, RefreshTokenOf;
      AfterStep(stored, events, ServerAnswers(f, outcome));
      events := events + [ServerAnswers(f, outcome)];
      flights := flights[f := outcome];
      issued := issued + RefreshTokenOf(StorageAfter(outcome));
    }

    /** So what holds in every run holds of the client between any two of these steps. */
    lemma RunsAreSafe()
      requires Valid()
      ensures Inv(View()) && Stories(View(), StoredAtCalls(Start(stored), events))
    {
      EveryRunKeeps(stored, events);
      EveryRunKeepsStories(stored, events);
    }
  }
}
