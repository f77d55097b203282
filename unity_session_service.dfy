/**
 * The session pool of UnitySessionService: a bag of (application, time of
 * last release) records.  Renting takes records out of the bag one at a time,
 * disposes those idle for more than an hour or failing the connection check,
 * and hands out the first survivor; an empty bag falls through to the session
 * factory.  Releasing puts the application back with the current time.
 *
 * The Hyland.Unity collaborators are parameters: the connection check
 * (`IsConnected && Ping()`) is a predicate, the factory's outcome is an
 * optional application (None when connecting throws), and the clock is the
 * tick count `now`.  Disposals are recorded in a ghost log.
 */
module Sessions {
  import opened Wrappers

  /** An OnBase application (session), named by its session id. */
  type Application = nat

  /** DateTime ticks are 100 ns. */
  const TicksPerHour: int := 36_000_000_000

  /** The record `ApplicationRentTracker(Application, LastRented)`. */
  datatype ApplicationRentTracker = ApplicationRentTracker(application: Application, lastRented: int)

  /** `LastRented.AddHours(1) < DateTime.Now`: idle for strictly more than an hour. */
  predicate IsStale(t: ApplicationRentTracker, now: int) {
    t.lastRented + TicksPerHour < now
  }

  /** What a rent hands back: a pooled record, a new application from the
      factory, or the factory's failure to connect (an exception). */
  datatype Retrieved = Pooled(tracker: ApplicationRentTracker) | Created(application: Application) | ConnectFailed

  function Applications(ts: seq<ApplicationRentTracker>): (hs: seq<Application>)
    ensures |hs| == |ts|
    ensures forall i :: 0 <= i < |ts| ==> hs[i] == ts[i].application
  {
    seq(|ts|, i requires 0 <= i < |ts| => ts[i].application)
  }

  /** Staleness is strict: a record released exactly one hour ago is kept,
      one released a tick earlier is evicted. */
  lemma StalenessBoundary(a: Application, now: int)
    ensures !IsStale(ApplicationRentTracker(a, now - TicksPerHour), now)
    ensures IsStale(ApplicationRentTracker(a, now - TicksPerHour - 1), now)
  {
  }

  class UnitySessionService {
    /** `_sessions`, the pooled records. */
    var sessions: multiset<ApplicationRentTracker>
    /** Every application disposed by the pool, in order. */
    ghost var disposed: seq<Application>

    constructor ()
      ensures sessions == multiset{} && disposed == []
    {
      sessions := multiset{};
      disposed := [];
    }

    /** Release (through RentedSession.Dispose): one record for the
        application, stamped `now`, with no health check. */
    method Release(application: Application, now: int)
      modifies this
      ensures sessions == old(sessions) + multiset{ApplicationRentTracker(application, now)}
      ensures disposed == old(disposed)
    {
      sessions := sessions + multiset{ApplicationRentTracker(application, now)};
    }

    /** RentConnection with RetrieveApplication's take-and-retry recursion as a
        loop.  Each round first removes one record, so the loop ends; `evicted`
        lists the records disposed on the way. */
    method RentConnection(isSessionConnected: Application -> bool, now: int, factory: Option<Application>)
      returns (r: Retrieved, ghost evicted: seq<ApplicationRentTracker>)
      modifies this
      ensures forall t :: t in evicted ==> IsStale(t, now) || !isSessionConnected(t.application)
      ensures disposed == old(disposed) + Applications(evicted)
      ensures r.Pooled? ==>
        && r.tracker in old(sessions)
        && !IsStale(r.tracker, now)
        && isSessionConnected(r.tracker.application)
        && old(sessions) == sessions + multiset(evicted) + multiset{r.tracker}
      ensures !r.Pooled? ==>
        && sessions == multiset{}
        && multiset(evicted) == old(sessions)
        && r == (if factory.Some? then Created(factory.value) else ConnectFailed)
      ensures old(sessions) == multiset{} ==> !r.Pooled? && evicted == []
    {
      evicted := [];
      while sessions != multiset{}
        invariant old(sessions) == sessions + multiset(evicted)
        invariant disposed == old(disposed) + Applications(evicted)
        invariant forall t :: t in evicted ==> IsStale(t, now) || !isSessionConnected(t.application)
        decreases |sessions|
      {
        var session :| session in sessions;
        sessions := sessions - multiset{session};
        if IsStale(session, now) {
          disposed := disposed + [session.application];
          evicted := evicted + [session];
          continue;
        }
        if isSessionConnected(session.application) {
          r := Pooled(session);
          return;
        }
        disposed := disposed + [session.application];
        evicted := evicted + [session];
      }
      r := if factory.Some? then Created(factory.value) else ConnectFailed;
    }
  }
}
