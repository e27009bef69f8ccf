/**
 The OAuth manager as a concurrent protocol. Every section method below is one critical section:
 the code between taking the manager's lock and giving it up or waiting on the condition. Network
 calls, storage and thread creation are the gaps between sections or may fail, so what comes of them
 is an argument. Any order of sections of any number of threads is a run.
 */
module OAuthManager {
  import opened Wrappers
  import opened OAuthThreads

  const UINT_MAX := 0xFFFF_FFFF
  const REFRESH_SKEW_SECONDS := 300

  /** A vault entry; Unreadable does not decrypt or parse. */
  datatype Entry = Readable(credentials: Credentials) | Unreadable

  type Vault = map<SessionId, Entry>

  datatype TokenResult = TokenOk | SignedOut | Transient | Permanent | Cancelled

  datatype PollResult = PollPending | PollTerminal

  /** The fields a login in progress leaves in the manager: the secrets of a callback login; the ids
      (device_auth_id and user_code), times and flag of a device login. */
  datatype Pending = Pending(state: Option<string>, ids: Option<string>, expiresAt: Time, nextPoll: Time,
                             interval: nat, polling: bool)

  const NO_LOGIN := Pending(None, None, 0, 0, 0, false)

  /** What the device endpoint grants: ids, polling interval and lifetime. */
  datatype Grant = Grant(ids: string, interval: nat, expiresIn: nat)

  /** A token request of a device login: its generation, when it was made, the interval then in force. */
  datatype Request = Request(epoch: nat, time: Time, interval: nat)

  /** Fresh credentials written to memory: the epoch their operation captured, the epoch it was then, and the
      session they were stored for. */
  datatype Commit = Commit(captured: nat, at: nat, session: SessionId)

  /** What was attached when a generation began, and where an attach under way at that moment was going. */
  datatype Opening = Opening(session: Option<SessionId>, attaching: Option<Option<SessionId>>)

  /** What has happened, for the specification: commits, token requests, and for the device login of this
      generation the interval it was granted and the slow_downs it has honoured. */
  datatype History = History(commits: seq<Commit>, requests: seq<Request>, granted: nat, slowDowns: nat)

  predicate NeedsRefresh(expiresAt: Time, now: Time) {
    expiresAt <= now || expiresAt - now <= REFRESH_SKEW_SECONDS
  }

  // ----- what every section keeps, as statements about the manager's fields -----

  /** Credentials in memory are the attached session's stored ones; without a session there are none. */
  predicate MirrorsVault(credentials: Option<Credentials>, session: Option<SessionId>, vault: Vault) {
    credentials.Some? ==> session.Some? && session.value in vault && vault[session.value] == Readable(credentials.value)
  }

  /** The thread of the lifecycle operation that is under way. */
  function LifecycleThread(threads: Threads, cast: Cast): Option<Thread> {
    if cast.lifecycle.Some? && cast.lifecycle.value in threads then Some(threads[cast.lifecycle.value]) else None
  }

  /** While an attach is between sessions there is none and nobody refreshes, and what it has read is still what
      is stored. */
  predicate AttachIsolated(operation: Option<Thread>, refresher: Option<ThreadId>, session: Option<SessionId>,
                           vault: Vault) {
    operation.Some? && Detached(operation.value) ==>
      && session.None? && refresher.None?
      && var work := operation.value.work;
         work.Loaded? && work.loaded.Ok? ==> MirrorsVault(work.loaded.value, work.attached, vault)
  }

  /** Where the attach that is under way is going. */
  function AttachTarget(operation: Option<Thread>): Option<Option<SessionId>> {
    match operation
    case Some(Operating(Draining(kind))) => TargetOf(kind)
    case Some(Operating(Loading(attached))) => Some(attached)
    case Some(Operating(Loaded(attached, _))) => Some(attached)
    case _ => None
  }

  function TargetOf(kind: Lifecycle): Option<Option<SessionId>> {
    if kind.Attach? then Some(kind.target) else None
  }

  /** The session that was attached when the refresh under way began. */
  function RefreshSession(threads: Threads, cast: Cast): Option<SessionId> {
    if cast.refresher.Some? && cast.refresher.value in threads && threads[cast.refresher.value].Refreshing?
    then Some(threads[cast.refresher.value].session) else None
  }

  /** Whoever is neither the operation nor the refresh leaves both alone. */
  lemma OthersMove(threads: Threads, cast: Cast, epoch: nat, t: ThreadId, next: Thread)
    requires cast.lifecycle != Some(t) && cast.refresher != Some(t) && !next.Operating? && !next.Refreshing?
    ensures var threads', cast' := threads[t := next], Recast(cast, t, next, epoch);
            && LifecycleThread(threads', cast') == LifecycleThread(threads, cast)
            && RefreshSession(threads', cast') == RefreshSession(threads, cast)
            && cast'.lifecycle == cast.lifecycle && cast'.refresher == cast.refresher
  {
  }

  lemma RefresherLeaves(threads: Threads, cast: Cast, t: ThreadId)
    requires cast.lifecycle != Some(t) && cast.refresher == Some(t)
    ensures var threads', cast' := threads - {t}, Without(cast, t);
            && LifecycleThread(threads', cast') == LifecycleThread(threads, cast)
            && RefreshSession(threads', cast').None? && cast'.refresher.None?
  {
  }

  /** The session was attached when the generation began, or the attach under way then was going to it. */
  predicate LeadsTo(opening: Opening, session: SessionId) {
    opening.session == Some(session) || opening.attaching == Some(Some(session))
  }

  /** Within one generation a session changes only by an attach that was under way when it began, and never while
      a refresh is. */
  predicate SessionsFollow(attaching: Option<Option<SessionId>>, refreshing: Option<SessionId>,
                           session: Option<SessionId>, openings: seq<Opening>, epoch: nat) {
    && |openings| == epoch + 1
    && (session.Some? ==> LeadsTo(openings[epoch], session.value))
    && (attaching.Some? ==> openings[epoch].attaching == attaching)
    && (session.Some? && refreshing.Some? ==> session == refreshing)
  }

  /** Every commit was for a session its generation leads to. */
  ghost predicate StoredInPlace(commits: seq<Commit>, openings: seq<Opening>) {
    forall c | c in commits :: c.at < |openings| && LeadsTo(openings[c.at], c.session)
  }

  /** No commit came from an operation whose generation had passed. */
  ghost predicate NoStaleCommit(commits: seq<Commit>, epoch: nat) {
    NoWrap(epoch) ==> forall c | c in commits :: c.captured == c.at
  }

  /** The latest token request of the current generation. */
  function LastRequest(requests: seq<Request>, epoch: nat): Option<Request> {
    if requests != [] && requests[|requests| - 1].epoch == epoch then Some(requests[|requests| - 1]) else None
  }

  /** Within one generation: a poll is flagged, and there is none before the device is registered; the interval
      is the granted one plus 5 for every slow_down; the next poll is due no sooner than that after the last. */
  predicate PollDiscipline(epoch: nat, poster: Option<ThreadId>, poller: Option<ThreadId>, pending: Pending,
                           history: History) {
    NoWrap(epoch) ==>
      && var last := LastRequest(history.requests, epoch);
      && (poster.Some? ==> pending.ids.None? && poller.None? && last.None?)
      && (pending.ids.Some? ==>
            && (poller.Some? ==> pending.polling)
            && pending.interval == history.granted + 5 * history.slowDowns
            && (last.Some? ==> pending.nextPoll >= last.value.time + pending.interval))
  }

  /** Token requests come in the order of their generations and times, and successive ones of one generation are at
      least the interval in force apart. */
  ghost predicate RequestsSpaced(requests: seq<Request>, epoch: nat, clock: Time) {
    && (forall i | 0 <= i < |requests| :: requests[i].epoch <= epoch && requests[i].time <= clock)
    && (forall i, j | 0 <= i < j < |requests| ::
         requests[i].epoch <= requests[j].epoch && requests[i].time <= requests[j].time)
    && (NoWrap(epoch) ==> forall i | 0 < i < |requests| && requests[i].epoch == requests[i - 1].epoch ::
          requests[i].time >= requests[i - 1].time + requests[i].interval)
  }

  class OpenAIOAuth {
    // the manager's fields
    var session: Option<SessionId>
    var credentials: Option<Credentials>      // access token, refresh token and what came with them
    var generation: nat
    var tokenVersion: nat
    var stopRequested: bool
    var destroying: bool
    var freed: bool
    var lifecycleBusy: bool
    var refreshInProgress: bool
    var lastRefreshResult: TokenResult
    var activeOperations: nat
    var callbackActive: bool
    var callbackReady: bool
    var callbackRc: int
    var threadJoinable: bool
    var loginId: Option<string>
    var pending: Pending
    // the world around it
    var vault: Vault
    var threads: Threads
    var clock: Time
    // for the specification
    var epoch: nat                            // how often the generation has changed
    ghost var cast: Cast
    ghost var history: History
    ghost var openings: seq<Opening>          // one for each generation so far

    ghost predicate OnStage()
      reads this`threads, this`cast, this`epoch
    {
      Played(threads, cast, epoch)
    }

    /** The flags say who is at work: a refresh, a lifecycle operation, so many device calls. */
    ghost predicate FlagsTell()
      reads this`refreshInProgress, this`cast, this`lifecycleBusy, this`activeOperations
    {
      && (refreshInProgress <==> cast.refresher.Some?)
      && (lifecycleBusy <==> cast.lifecycle.Some?)
      && activeOperations == |cast.device|
    }

    /** Where the attach that is under way, if there is one, is going. */
    ghost function Attaching(): Option<Option<SessionId>>
      reads this`threads, this`cast
    {
      AttachTarget(LifecycleThread(threads, cast))
    }

    ghost predicate Inv()
      reads this`session, this`credentials, this`vault, this`generation, this`epoch, this`threads, this`cast, this`clock
      reads this`refreshInProgress, this`lifecycleBusy, this`activeOperations, this`pending, this`history, this`openings
    {
      && OnStage() && generation == GenerationAt(epoch) && FlagsTell()
      && MirrorsVault(credentials, session, vault)
      && AttachIsolated(LifecycleThread(threads, cast), cast.refresher, session, vault)
      && SessionsFollow(Attaching(), RefreshSession(threads, cast), session, openings, epoch)
      && StoredInPlace(history.commits, openings)
      && PollDiscipline(epoch, cast.poster, cast.poller, pending, history)
      && NoStaleCommit(history.commits, epoch) && RequestsSpaced(history.requests, epoch, clock)
    }

    constructor ()
      ensures Inv() && threads == map[] && session.None? && credentials.None? && vault == map[] && epoch == 0 && !freed
      ensures !destroying && !lifecycleBusy && !callbackActive && history.commits == []
      ensures !refreshInProgress && activeOperations == 0
    {
      session, credentials, generation, tokenVersion := None, None, 0, 0;
      stopRequested, destroying, freed, lifecycleBusy, refreshInProgress := false, false, false, false, false;
      lastRefreshResult, activeOperations, callbackActive, callbackReady, callbackRc := SignedOut, 0, false, false, 0;
      threadJoinable, loginId, pending := false, None, NO_LOGIN;
      vault, threads, clock := map[], map[], 0;
      epoch, cast, history, openings := 0, NOBODY, History([], [], 0, 0), [Opening(None, None)];
    }

    // ----- the two places where threads move -----

    /** Thread t goes on to `next`; a part it takes up must be free. */
    method Move(t: ThreadId, next: Thread)
      requires OnStage() && PartsFree(cast, t, next, epoch) && Fresh(next, epoch)
      modifies this`threads, this`cast
      ensures OnStage() && threads == old(threads)[t := next] && cast == Recast(old(cast), t, next, epoch)
      ensures |cast.device| == |old(cast).device| - Counts(old(cast), t) + (if InDeviceCall(next) then 1 else 0)
    {
      hide Played, GenerationAt;
      MoveKeeps(threads, cast, epoch, t, next);
      Counted(cast.device, t);
      threads, cast := threads[t := next], Recast(cast, t, next, epoch);
    }

    /** Thread t returns to its caller or ends. */
    method Leave(t: ThreadId)
      requires OnStage()
      modifies this`threads, this`cast
      ensures OnStage() && threads == old(threads) - {t} && cast == Without(old(cast), t)
      ensures |cast.device| == |old(cast).device| - Counts(old(cast), t)
    {
      hide Played, GenerationAt;
      LeaveKeeps(threads, cast, epoch, t);
      Counted(cast.device, t);
      threads, cast := threads - {t}, Without(cast, t);
    }

    /** Everything a thread knows about itself, and whether its generation is still the current one. */
    lemma Self(t: ThreadId)
      requires Inv() && t in threads
      ensures Plays(t, threads[t], cast, epoch)
      ensures Captured(threads[t]) && NoWrap(epoch) ==> (threads[t].gen == generation <==> threads[t].epoch == epoch)
      ensures Captured(threads[t]) && threads[t].epoch == epoch ==> threads[t].gen == generation
    {
      hide GenerationAt;
      PartOf(threads, cast, epoch, t);
      if Captured(threads[t]) { SameGeneration(threads[t].epoch, epoch); }
    }

    lemma GenerationNow()
      requires Inv()
      ensures generation == GenerationAt(epoch)
    {
    }

    // ----- steps the sections share; each keeps the invariant -----

    /** A thread that plays no part arrives, or goes on to play none. */
    method Advance(t: ThreadId, next: Thread)
      requires Inv() && (t in threads ==> Bystander(threads[t])) && Bystander(next) && Fresh(next, epoch)
      modifies this`threads, this`cast
      ensures Inv() && threads == old(threads)[t := next] && cast == old(cast)
    {
      hide PollDiscipline, NoStaleCommit, StoredInPlace, RequestsSpaced, MirrorsVault, AttachIsolated, SessionsFollow,
           Played, GenerationAt, Recast;
      BystanderKeeps(threads, cast, epoch, t);
      assert PartsFree(cast, t, next, epoch);
      Move(t, next);
    }

    /** A thread that plays no part returns to its caller or ends. */
    method Retire(t: ThreadId)
      requires Inv() && t in threads && Bystander(threads[t])
      modifies this`threads, this`cast
      ensures Inv() && threads == old(threads) - {t} && cast == old(cast)
    {
      hide PollDiscipline, NoStaleCommit, StoredInPlace, RequestsSpaced, MirrorsVault, AttachIsolated, SessionsFollow,
           Played, GenerationAt, Without;
      BystanderKeeps(threads, cast, epoch, t);
      Leave(t);
    }

    /** clear_pending_sensitive_locked; a callback login then sets its own state. */
    method ClearPending(state: Option<string>)
      requires Inv()
      modifies this`pending
      ensures Inv() && pending == NO_LOGIN.(state := state)
      ensures pending.ids.None? && !pending.polling
    {
      hide OnStage, FlagsTell, NoStaleCommit, StoredInPlace, RequestsSpaced, MirrorsVault, AttachIsolated,
           SessionsFollow;
      pending := NO_LOGIN.(state := state);
    }

    /** A new generation: every captured one is old now. `attaching` is where an attach is going that is under way
        or begins in this section. */
    method NewGeneration(ghost attaching: Option<Option<SessionId>>)
      requires Inv() && (Attaching().Some? ==> attaching == Attaching())
      modifies this`generation, this`epoch, this`cast, this`openings
      ensures Inv() && epoch == old(epoch) + 1 && generation == NextGeneration(old(generation))
      ensures cast == old(cast).(poster := None, poller := None) && LastRequest(history.requests, epoch).None?
      ensures openings == old(openings) + [Opening(session, attaching)]
    {
      hide Played, MirrorsVault, AttachIsolated;
      NewGenerationKeeps(threads, cast, epoch);
      generation, epoch, cast := NextGeneration(generation), epoch + 1, cast.(poster := None, poller := None);
      openings := openings + [Opening(session, attaching)];
    }

    /** cancel_callback_locked */
    method CancelCallback(ghost attaching: Option<Option<SessionId>>)
      requires Inv() && (Attaching().Some? ==> attaching == Attaching())
      modifies this`generation, this`epoch, this`cast, this`openings, this`stopRequested, this`callbackActive
      modifies this`pending
      ensures Inv() && epoch == old(epoch) + 1 && generation == NextGeneration(old(generation))
      ensures cast == old(cast).(poster := None, poller := None)
      ensures openings == old(openings) + [Opening(session, attaching)]
      ensures stopRequested && !callbackActive && pending == NO_LOGIN
    {
      hide Inv, GenerationAt;
      NewGeneration(attaching);
      stopRequested := true;
      ClearPending(None);
      callbackActive := false;
    }

    /** persist_staged_locked, then commit_credentials_locked: nothing happens in memory unless the vault has taken
        the credentials first. */
    method PersistAndCommit(t: ThreadId, staged: Credentials, stored: bool) returns (ok: bool)
      requires Inv() && t in threads && Captured(threads[t]) && threads[t].gen == generation
      modifies this`vault, this`credentials, this`tokenVersion, this`history
      ensures Inv() && (ok <==> stored && session.Some?)
      ensures ok ==>
          && credentials == Some(staged) && vault == old(vault)[session.value := Readable(staged)]
          && tokenVersion == NextGeneration(old(tokenVersion))
          && history == old(history).(commits :=
               old(history).commits + [Commit(threads[t].epoch, epoch, session.value)])
      ensures !ok ==>
          && credentials == old(credentials) && vault == old(vault)
          && tokenVersion == old(tokenVersion) && history == old(history)
    {
      hide OnStage, FlagsTell, RequestsSpaced;
      ok := session.Some? && stored;
      if ok {
        Self(t);
        vault := vault[session.value := Readable(staged)];
        credentials, tokenVersion := Some(staged), NextGeneration(tokenVersion);
        history := history.(commits := history.commits + [Commit(threads[t].epoch, epoch, session.value)]);
      }
    }

    /** The stored entry goes first; memory follows only if that is gone, or there is no session to keep it. */
    method DeleteAndClear(deleted: bool) returns (ok: bool)
      requires Inv()
      modifies this`vault, this`credentials
      ensures Inv() && (ok <==> deleted || session.None?)
      ensures ok ==> credentials.None? && vault == if session.Some? then old(vault) - {session.value} else old(vault)
      ensures !ok ==> credentials == old(credentials) && vault == old(vault)
    {
      hide OnStage, FlagsTell, PollDiscipline, NoStaleCommit, StoredInPlace, RequestsSpaced;
      ok := session.None? || deleted;
      if ok {
        if session.Some? { vault := vault - {session.value}; }
        credentials := None;
      }
    }

    // ----- access tokens: get, force refresh, refresh after a 401 -----

    /** The single flight: the flag is taken by the thread that goes to the network. */
    method RefreshBegin(t: ThreadId)
      requires Inv() && t !in threads && !refreshInProgress && session.Some?
      modifies this`threads, this`cast, this`refreshInProgress
      ensures Inv() && threads == old(threads)[t := Refreshing(generation, epoch, session.value)] && refreshInProgress
    {
      hide OnStage, PollDiscipline, NoStaleCommit, StoredInPlace, RequestsSpaced, MirrorsVault, GenerationAt;
      assert t !in cast.device && cast.lifecycle != Some(t) && Without(cast, t) == cast by { Newcomer(t); }
      Move(t, Refreshing(generation, epoch, session.value));
      refreshInProgress := true;
    }

    /** A thread that is not here plays no part. */
    lemma Newcomer(t: ThreadId)
      requires Inv() && t !in threads
      ensures cast == Without(cast, t) && t !in cast.device
    {
      BystanderKeeps(threads, cast, epoch, t);
    }

    /** The session is the one that was attached when the refresh began, unless it has been taken away since. */
    lemma RefreshedSession(t: ThreadId)
      requires Inv() && t in threads && threads[t].Refreshing? && session.Some?
      ensures session == Some(threads[t].session)
    {
      hide PollDiscipline, NoStaleCommit, StoredInPlace, RequestsSpaced, MirrorsVault, AttachIsolated, GenerationAt;
      Self(t);
    }

    method RefreshEnd(t: ThreadId, r: TokenResult)
      requires Inv() && t in threads && threads[t].Refreshing?
      modifies this`threads, this`cast, this`refreshInProgress, this`lastRefreshResult
      ensures Inv() && threads == old(threads) - {t} && !refreshInProgress && lastRefreshResult == r
    {
      hide OnStage, PollDiscipline, NoStaleCommit, StoredInPlace, RequestsSpaced, MirrorsVault, GenerationAt,
           LifecycleThread, RefreshSession;
      Self(t);
      RefresherLeaves(threads, cast, t);
      Leave(t);
      lastRefreshResult, refreshInProgress := r, false;
    }

    predicate SignedOutNow()
      reads this`session, this`credentials, this`destroying, this`stopRequested
    {
      session.None? || credentials.None? || destroying || stopRequested
    }

    /** The entry of the three token calls. `rejected` is the access token a 401 was for. Signed out or stopped there
        is no token. Otherwise the one in memory is handed out at once if a 401 was for another, or, without a 401,
        if nobody insists, nobody refreshes and it is good for more than 300 seconds. In all other cases there is no
        result yet: the call waits behind somebody else's refresh, or begins its own. */
    method TokenEnter(t: ThreadId, force: bool, rejected: Option<string>)
      returns (r: Option<TokenResult>, token: Option<string>)
      requires Inv() && t !in threads
      modifies this`threads, this`cast, this`refreshInProgress
      ensures Inv()
      ensures session.None? || credentials.None? || destroying || stopRequested ==>
          && r == Some(SignedOut) && token.None?
          && threads == old(threads) && refreshInProgress == old(refreshInProgress)
      ensures session.Some? && credentials.Some? && !destroying && !stopRequested ==>
          if (if rejected.Some? then rejected.value != credentials.value.access
              else !force && !old(refreshInProgress) && credentials.value.expiresAt > clock + 300)
          then
            && r == Some(TokenOk) && token == Some(credentials.value.access)
            && threads == old(threads) && refreshInProgress == old(refreshInProgress)
          else
            && r.None? && token.None? && refreshInProgress
            && threads == old(threads)[t := if old(refreshInProgress)
                                            then Waiting(RefreshWait(force || rejected.Some?, tokenVersion))
                                            else Refreshing(generation, epoch, session.value)]
    {
      hide Inv, GenerationAt;
      r, token := None, None;
      var forced := force || rejected.Some?;
      if SignedOutNow() {
        r := Some(SignedOut);
      } else if rejected.Some? && credentials.value.access != rejected.value {
        r, token := Some(TokenOk), Some(credentials.value.access);
      } else if refreshInProgress {
        Advance(t, Waiting(RefreshWait(forced, tokenVersion)));
      } else if !forced && !NeedsRefresh(credentials.value.expiresAt, clock) {
        r, token := Some(TokenOk), Some(credentials.value.access);
      } else {
        RefreshBegin(t);
      }
    }

    /** A waiter is woken. It never goes to the network itself. A call that finds itself signed out or stopped
        hands on the last result, whatever it is, and no token with it. */
    method RefreshWake(t: ThreadId) returns (r: Option<TokenResult>, token: Option<string>)
      requires Inv() && t in threads && threads[t].Waiting? && threads[t].place.RefreshWait?
      modifies this`threads, this`cast
      ensures Inv() && threads == if r.Some? then old(threads) - {t} else old(threads)
      ensures token.Some? ==> r == Some(TokenOk) && credentials.Some? && token.value == credentials.value.access
      ensures session.None? || credentials.None? || destroying || stopRequested ==>
          r == Some(lastRefreshResult) && token.None?
      ensures session.Some? && credentials.Some? && !destroying && !stopRequested ==>
          if old(threads[t]).place.force && tokenVersion != old(threads[t]).place.observed then token.Some?
          else
            && (r.None? <==> refreshInProgress)
            && (r.Some? ==> r == Some(lastRefreshResult) && (token.Some? <==> lastRefreshResult == TokenOk))
    {
      hide Inv, GenerationAt;
      r, token := None, None;
      var place := threads[t].place;
      if SignedOutNow() {
        r := Some(lastRefreshResult);
      } else if place.force && tokenVersion != place.observed {
        r, token := Some(TokenOk), Some(credentials.value.access);
      } else if refreshInProgress {
        return;
      } else {
        r := Some(lastRefreshResult);
        if lastRefreshResult == TokenOk { token := Some(credentials.value.access); }
      }
      Retire(t);
    }

    /** Back from the exchange with its outcome, the credentials it brought and the storage doing its part or not. */
    method RefreshFinish(t: ThreadId, exchange: TokenResult, staged: Credentials, stored: bool) returns (r: TokenResult)
      requires Inv() && t in threads && threads[t].Refreshing?
      modifies this`threads, this`cast, this`refreshInProgress, this`lastRefreshResult
      modifies this`vault, this`credentials, this`tokenVersion, this`history
      ensures Inv() && threads == old(threads) - {t} && !refreshInProgress && lastRefreshResult == r
      ensures old(threads[t]).gen != generation || stopRequested || destroying ==> r == Cancelled
      ensures old(threads[t]).gen == generation && !stopRequested && !destroying ==>
          r == if (exchange == TokenOk && !(stored && session.Some?))
                  || (exchange == Permanent && !(stored || session.None?))
               then Transient else exchange
      ensures r == TokenOk ==>
          && session == Some(old(threads[t]).session)
          && credentials == Some(staged) && vault == old(vault)[session.value := Readable(staged)]
          && tokenVersion == NextGeneration(old(tokenVersion))
          && history == old(history).(commits :=
               old(history).commits + [Commit(old(threads[t]).epoch, epoch, session.value)])
      ensures r == Permanent ==>
          credentials.None? && vault == if session.Some? then old(vault) - {session.value} else old(vault)
      ensures r != TokenOk ==> tokenVersion == old(tokenVersion) && history == old(history)
      ensures r != TokenOk && r != Permanent ==> credentials == old(credentials) && vault == old(vault)
    {
      hide Inv, GenerationAt;
      r := exchange;
      if threads[t].gen != generation || stopRequested || destroying {
        r := Cancelled;
      } else if exchange == TokenOk {
        if session.Some? { RefreshedSession(t); }
        var ok := PersistAndCommit(t, staged, stored);
        if !ok { r := Transient; }
      } else if exchange == Permanent {
        var ok := DeleteAndClear(stored);
        if !ok { r := Transient; }
      }
      RefreshEnd(t, r);
    }

    // ----- starting a login: reap, begin, wait, clean up -----

    /** reap_previous_callback, up to the join. */
    method StartReap(t: ThreadId) returns (ok: bool)
      requires Inv() && t !in threads
      modifies this`threads, this`cast, this`threadJoinable
      ensures Inv() && (ok <==> !callbackActive && !destroying && !lifecycleBusy)
      ensures ok ==> !threadJoinable && threads == old(threads)[t := Waiting(Reaped)]
      ensures !ok ==> threadJoinable == old(threadJoinable) && threads == old(threads)
    {
      hide Inv, GenerationAt;
      ok := !callbackActive && !destroying && !lifecycleBusy;
      if ok {
        threadJoinable := false;
        Advance(t, Waiting(Reaped));
      }
    }

    /** Both kinds of login may begin. Unlike the reaping section this one does not look at lifecycle_busy. */
    predicate MayBegin()
      reads this`session, this`callbackActive, this`destroying
    {
      session.Some? && !callbackActive && !destroying
    }

    /** What both kinds of login do first: the old login is wiped, a new generation opens, `id` names it. */
    method LoginBegin(id: string, state: Option<string>)
      requires Inv()
      modifies this`generation, this`epoch, this`cast, this`openings, this`stopRequested, this`callbackActive
      modifies this`loginId, this`pending
      ensures Inv() && epoch == old(epoch) + 1 && generation == NextGeneration(old(generation))
      ensures cast == old(cast).(poster := None, poller := None) && LastRequest(history.requests, epoch).None?
      ensures openings == old(openings) + [Opening(session, old(Attaching()))]
      ensures !stopRequested && callbackActive && pending == NO_LOGIN.(state := state) && loginId == Some(id)
    {
      hide Inv, GenerationAt;
      ClearPending(state);
      loginId := Some(id);
      NewGeneration(Attaching());
      stopRequested, callbackActive := false, true;
    }

    /** The server thread exists, and the caller waits for it. */
    method StartServing(t: ThreadId, server: ThreadId)
      requires Inv() && t in threads && threads[t] == Waiting(Reaped) && server !in threads
      modifies this`threads, this`cast
      ensures Inv() && cast == old(cast)
      ensures threads == old(threads)[t := Waiting(StartWait)][server := Serving(generation, epoch, Open)]
    {
      hide Inv, GenerationAt;
      Advance(t, Waiting(StartWait));
      GenerationNow();
      Advance(server, Serving(generation, epoch, Open));
    }

    /** openai_oauth_start with the lock held, up to the wait for the server; `server` is the callback thread if one
        could be created. */
    method StartBegin(t: ThreadId, state: string, id: string, server: Option<ThreadId>) returns (ok: bool)
      requires Inv() && t in threads && threads[t] == Waiting(Reaped)
      requires server.Some? ==> server.value !in threads
      modifies this`threads, this`generation, this`epoch, this`cast, this`openings, this`stopRequested
      modifies this`callbackActive, this`loginId, this`pending, this`callbackReady, this`callbackRc, this`threadJoinable
      ensures Inv() && (ok <==> session.Some? && !old(callbackActive) && !destroying && server.Some?)
      ensures session.Some? && !old(callbackActive) && !destroying ==>
          && epoch == old(epoch) + 1 && generation == NextGeneration(old(generation)) && !stopRequested
          && openings == old(openings) + [Opening(session, old(Attaching()))]
      ensures ok ==>
          && callbackActive && !callbackReady && callbackRc == -1 && threadJoinable
          && loginId == Some(id) && pending == NO_LOGIN.(state := Some(state))
          && threads == old(threads)[t := Waiting(StartWait)][server.value := Serving(generation, epoch, Open)]
      ensures !ok ==> threads == old(threads) - {t} && threadJoinable == old(threadJoinable)
      ensures !ok && session.Some? && !old(callbackActive) && !destroying ==>
          !callbackActive && pending == NO_LOGIN && loginId.None?
      ensures session.None? || old(callbackActive) || destroying ==>
          && epoch == old(epoch) && generation == old(generation) && stopRequested == old(stopRequested)
          && callbackActive == old(callbackActive) && loginId == old(loginId) && pending == old(pending)
          && openings == old(openings) && callbackReady == old(callbackReady) && callbackRc == old(callbackRc)
    {
      hide Inv, GenerationAt;
      ok := false;
      if MayBegin() {
        LoginBegin(id, Some(state));
        callbackReady, callbackRc := false, -1;
        if server.Some? {
          StartServing(t, server.value);
          threadJoinable, ok := true, true;
          return;
        }
        callbackActive := false;
        ClearPending(None);
        loginId := None;
      }
      Retire(t);
    }

    /** The server has said how it went, or the wait itself failed. */
    method StartReady(t: ThreadId, waitFailed: bool) returns (ready: bool)
      requires Inv() && t in threads && threads[t] == Waiting(StartWait) && (callbackReady || waitFailed)
      modifies this`threads, this`cast, this`callbackRc, this`threadJoinable, this`stopRequested
      ensures Inv() && callbackRc == (if waitFailed then -1 else old(callbackRc)) && (ready <==> callbackRc == 0)
      ensures ready ==>
          threads == old(threads) - {t} && threadJoinable == old(threadJoinable) && stopRequested == old(stopRequested)
      ensures !ready ==> threads == old(threads)[t := Waiting(StartJoin)] && !threadJoinable && stopRequested
    {
      hide Inv, GenerationAt;
      if waitFailed { callbackRc := -1; }
      ready := callbackRc == 0;
      if ready {
        Retire(t);
      } else {
        threadJoinable, stopRequested := false, true;
        Advance(t, Waiting(StartJoin));
      }
    }

    /** After a failed start: whatever login is pending by now goes, whoever started it. */
    method StartCleanup(t: ThreadId)
      requires Inv() && t in threads && threads[t] == Waiting(StartJoin)
      modifies this`threads, this`cast, this`pending, this`loginId, this`stopRequested
      ensures Inv() && threads == old(threads) - {t} && pending == NO_LOGIN && loginId.None? && !stopRequested
    {
      hide Inv, GenerationAt;
      ClearPending(None);
      loginId, stopRequested := None, false;
      Retire(t);
    }

    // ----- the callback server -----

    /** callback_publish_listener, if the socket listens. */
    method CallbackPublish(c: ThreadId, listening: bool)
      requires Inv() && c in threads && threads[c].Serving? && threads[c].duty == Open
      modifies this`threads, this`cast, this`callbackReady, this`callbackRc
      ensures Inv()
      ensures var valid := listening && old(threads[c]).gen == generation && !stopRequested && !destroying;
              && callbackReady == (valid || old(callbackReady)) && callbackRc == (if valid then 0 else old(callbackRc))
              && threads == old(threads)[c := old(threads[c]).(duty := if valid then Listen else OpenFailed)]
    {
      hide Inv, GenerationAt;
      Self(c);
      var valid := listening && threads[c].gen == generation && !stopRequested && !destroying;
      if valid { callbackReady, callbackRc := true, 0; }
      Advance(c, threads[c].(duty := if valid then Listen else OpenFailed));
    }

    method CallbackPublishFailure(c: ThreadId)
      requires Inv() && c in threads && threads[c].Serving? && threads[c].duty == OpenFailed
      modifies this`threads, this`cast, this`callbackReady, this`callbackRc
      ensures Inv() && threads == old(threads)[c := old(threads[c]).(duty := CloseDown)]
      ensures old(threads[c]).gen == generation ==> callbackReady && callbackRc == -1
      ensures old(threads[c]).gen != generation ==> callbackReady == old(callbackReady) && callbackRc == old(callbackRc)
    {
      hide Inv, GenerationAt;
      Self(c);
      if threads[c].gen == generation { callbackReady, callbackRc := true, -1; }
      Advance(c, threads[c].(duty := CloseDown));
    }

    /** A request has arrived with this state: only the pending one, of this generation, is accepted, and only once. */
    method CallbackState(c: ThreadId, state: string, denied: bool) returns (valid: bool)
      requires Inv() && c in threads && threads[c].Serving? && threads[c].duty == Listen
      modifies this`threads, this`cast, this`pending
      ensures Inv()
      ensures valid <==> old(threads[c]).gen == generation && !stopRequested && old(pending).state == Some(state)
      ensures valid ==>
          && pending == NO_LOGIN
          && threads == old(threads)[c := old(threads[c]).(duty := if denied then CloseDown else Redeem)]
      ensures !valid ==> pending == old(pending) && threads == old(threads)
    {
      hide Inv, GenerationAt;
      Self(c);
      valid := threads[c].gen == generation && !stopRequested && pending.state == Some(state);
      if valid {
        ClearPending(None);
        Advance(c, threads[c].(duty := if denied then CloseDown else Redeem));
      }
    }

    /** The server stops serving: timed out, cancelled, or the exchange brought no tokens. */
    method CallbackGiveUp(c: ThreadId)
      requires Inv() && c in threads && threads[c].Serving? && threads[c].duty in {Open, Listen, Redeem}
      modifies this`threads, this`cast
      ensures Inv()
      ensures var duty := if old(threads[c]).duty == Open then OpenFailed else CloseDown;
              threads == old(threads)[c := old(threads[c]).(duty := duty)]
    {
      hide Inv, GenerationAt;
      Self(c);
      Advance(c, threads[c].(duty := if threads[c].duty == Open then OpenFailed else CloseDown));
    }

    /** complete_callback_tokens, shared by the callback server and the device poll. */
    method CompleteTokens(t: ThreadId, staged: Credentials, stored: bool) returns (ok: bool)
      requires Inv() && t in threads && Captured(threads[t])
      modifies this`vault, this`credentials, this`tokenVersion, this`history
      ensures Inv()
      ensures ok <==> threads[t].gen == generation && !stopRequested && session.Some? && stored
      ensures ok ==>
          && credentials == Some(staged) && vault == old(vault)[session.value := Readable(staged)]
          && tokenVersion == NextGeneration(old(tokenVersion))
          && history == old(history).(commits :=
               old(history).commits + [Commit(threads[t].epoch, epoch, session.value)])
      ensures !ok ==>
          && credentials == old(credentials) && vault == old(vault)
          && tokenVersion == old(tokenVersion) && history == old(history)
    {
      hide Inv, GenerationAt;
      ok := false;
      if threads[t].gen == generation && !stopRequested {
        ok := PersistAndCommit(t, staged, stored);
      }
    }

    method CallbackRedeem(c: ThreadId, staged: Credentials, stored: bool) returns (ok: bool)
      requires Inv() && c in threads && threads[c].Serving? && threads[c].duty == Redeem
      modifies this`threads, this`cast, this`vault, this`credentials, this`tokenVersion, this`history
      ensures Inv() && threads == old(threads)[c := old(threads[c]).(duty := CloseDown)]
      ensures ok <==> old(threads[c]).gen == generation && !stopRequested && session.Some? && stored
      ensures ok ==>
          && credentials == Some(staged) && vault == old(vault)[session.value := Readable(staged)]
          && tokenVersion == NextGeneration(old(tokenVersion))
          && history == old(history).(commits :=
               old(history).commits + [Commit(old(threads[c]).epoch, epoch, session.value)])
      ensures !ok ==>
          && credentials == old(credentials) && vault == old(vault)
          && tokenVersion == old(tokenVersion) && history == old(history)
    {
      hide Inv, GenerationAt;
      Self(c);
      ok := CompleteTokens(c, staged, stored);
      Advance(c, threads[c].(duty := CloseDown));
    }

    method CallbackFinish(c: ThreadId)
      requires Inv() && c in threads && threads[c].Serving? && threads[c].duty == CloseDown
      modifies this`threads, this`cast, this`callbackActive, this`pending
      ensures Inv() && threads == old(threads) - {c}
      ensures old(threads[c]).gen == generation ==> !callbackActive && pending == NO_LOGIN
      ensures old(threads[c]).gen != generation ==> callbackActive == old(callbackActive) && pending == old(pending)
    {
      hide Inv, GenerationAt;
      if threads[c].gen == generation {
        callbackActive := false;
        ClearPending(None);
      }
      Retire(c);
    }

    // ----- device login -----

    /** The device start joins the operations in flight: active_operations++. */
    method RegisterBegin(t: ThreadId)
      requires Inv() && t in threads && Bystander(threads[t])
      requires cast.poster.None? && cast.poller.None? && pending.ids.None? && LastRequest(history.requests, epoch).None?
      modifies this`threads, this`cast, this`activeOperations
      ensures Inv() && threads == old(threads)[t := Starting(generation, epoch, Register)]
      ensures activeOperations == old(activeOperations) + 1
    {
      hide OnStage, NoStaleCommit, StoredInPlace, RequestsSpaced, MirrorsVault, AttachIsolated, SessionsFollow,
           LifecycleThread, RefreshSession, GenerationAt;
      Self(t);
      OthersMove(threads, cast, epoch, t, Starting(generation, epoch, Register));
      Move(t, Starting(generation, epoch, Register));
      activeOperations := activeOperations + 1;
    }

    /** openai_oauth_device_start with the lock held, up to the request. */
    method DeviceStartBegin(t: ThreadId, id: string) returns (ok: bool)
      requires Inv() && t in threads && threads[t] == Waiting(Reaped)
      modifies this`threads, this`generation, this`epoch, this`cast, this`openings, this`stopRequested
      modifies this`callbackActive, this`loginId, this`pending, this`activeOperations
      ensures Inv() && (ok <==> session.Some? && !old(callbackActive) && !destroying)
      ensures ok ==>
          && epoch == old(epoch) + 1 && generation == NextGeneration(old(generation))
          && !stopRequested && callbackActive
          && loginId == Some(id) && pending == NO_LOGIN && activeOperations == old(activeOperations) + 1
          && threads == old(threads)[t := Starting(generation, epoch, Register)]
          && openings == old(openings) + [Opening(session, old(Attaching()))]
      ensures !ok ==>
          && threads == old(threads) - {t} && openings == old(openings)
          && activeOperations == old(activeOperations) && epoch == old(epoch)
          && generation == old(generation) && stopRequested == old(stopRequested)
          && callbackActive == old(callbackActive) && loginId == old(loginId) && pending == old(pending)
    {
      hide Inv, GenerationAt, LastRequest;
      ok := MayBegin();
      if ok {
        LoginBegin(id, None);
        RegisterBegin(t);
      } else {
        Retire(t);
      }
    }

    /** The device endpoint has answered at `now`: the grant is kept if this is still the login under way. */
    method DevicePublish(t: ThreadId, answer: Option<Grant>, now: Time) returns (ok: bool)
      requires Inv() && t in threads && threads[t].Starting? && threads[t].progress == Register
      modifies this`threads, this`cast, this`pending, this`history
      ensures Inv()
      ensures ok <==> answer.Some? && old(threads[t]).gen == generation && !stopRequested && loginId.Some?
      ensures threads == old(threads)[t := old(threads[t]).(progress := if ok then Returning else RegisterFailed)]
      ensures ok ==>
          var g := answer.value;
          && pending == old(pending).(ids := Some(g.ids), interval := g.interval, nextPoll := now + g.interval,
                                      expiresAt := now + g.expiresIn)
          && history == old(history).(granted := g.interval, slowDowns := 0)
      ensures !ok ==> pending == old(pending) && history == old(history)
    {
      hide OnStage, NoStaleCommit, StoredInPlace, RequestsSpaced, MirrorsVault, AttachIsolated, SessionsFollow,
           LifecycleThread, RefreshSession, GenerationAt;
      Self(t);
      ok := answer.Some? && threads[t].gen == generation && !stopRequested && loginId.Some?;
      if ok {
        var g := answer.value;
        pending := pending.(ids := Some(g.ids), interval := g.interval, nextPoll := now + g.interval,
                            expiresAt := now + g.expiresIn);
        history := history.(granted := g.interval, slowDowns := 0);
      }
      OthersMove(threads, cast, epoch, t, threads[t].(progress := if ok then Returning else RegisterFailed));
      Move(t, threads[t].(progress := if ok then Returning else RegisterFailed));
    }

    /** device_start_failed */
    method DeviceStartFailed(t: ThreadId)
      requires Inv() && t in threads && threads[t].Starting? && threads[t].progress == RegisterFailed
      modifies this`threads, this`cast, this`pending, this`loginId, this`callbackActive
      ensures Inv() && threads == old(threads)[t := old(threads[t]).(progress := Returning)]
      ensures old(threads[t]).gen == generation ==> pending == NO_LOGIN && loginId.None? && !callbackActive
      ensures old(threads[t]).gen != generation ==>
          pending == old(pending) && loginId == old(loginId) && callbackActive == old(callbackActive)
    {
      hide Inv, GenerationAt;
      if threads[t].gen == generation {
        ClearPending(None);
        loginId, callbackActive := None, false;
      }
      StayInCall(t, threads[t].(progress := Returning));
    }

    /** A thread inside a device call goes on within it. */
    method StayInCall(t: ThreadId, next: Thread)
      requires Inv() && t in threads && InDeviceCall(threads[t]) && InDeviceCall(next)
      requires next.gen == threads[t].gen && next.epoch == threads[t].epoch
      requires threads[t].Polling? <==> next.Polling?
      requires next.Starting? ==> next.progress != Register
      modifies this`threads, this`cast
      ensures Inv() && threads == old(threads)[t := next]
    {
      hide OnStage, NoStaleCommit, StoredInPlace, RequestsSpaced, MirrorsVault, AttachIsolated, SessionsFollow,
           LifecycleThread, RefreshSession, GenerationAt;
      Self(t);
      OthersMove(threads, cast, epoch, t, next);
      Move(t, next);
    }

    /** active_operation_finish: the counter never stands at 0 here. */
    method ActiveOperationFinish(t: ThreadId)
      requires Inv() && t in threads && Returns(threads[t])
      modifies this`threads, this`cast, this`activeOperations
      ensures Inv() && threads == old(threads) - {t} && activeOperations == old(activeOperations) - 1
    {
      hide OnStage, NoStaleCommit, StoredInPlace, RequestsSpaced, MirrorsVault, AttachIsolated, SessionsFollow,
           GenerationAt;
      Self(t);
      Leave(t);
      if activeOperations > 0 { activeOperations := activeOperations - 1; }
    }

    /** The login that may be polled is this one. */
    predicate Pollable(login: string)
      reads this`callbackActive, this`pending, this`loginId
    {
      callbackActive && pending.ids.Some? && loginId == Some(login)
    }

    /** openai_oauth_device_poll with the lock held, up to the request. */
    method PollBegin(t: ThreadId, login: string) returns (r: Option<PollResult>)
      requires Inv() && t !in threads
      modifies this`threads, this`cast, this`pending, this`activeOperations, this`history
      ensures Inv()
      ensures !callbackActive || old(pending).ids.None? || loginId != Some(login) ==>
          r == Some(PollTerminal) && threads == old(threads)
      ensures callbackActive && old(pending).ids.Some? && loginId == Some(login) && clock >= old(pending).expiresAt ==>
          r.None? && threads == old(threads)[t := Serving(generation, epoch, Expired)]
      ensures callbackActive && old(pending).ids.Some? && loginId == Some(login) && clock < old(pending).expiresAt ==>
          && (r.None? <==> !old(pending).polling && clock >= old(pending).nextPoll)
          && (r.Some? ==> r == Some(PollPending) && threads == old(threads))
          && (r.None? ==> threads == old(threads)[t := Polling(generation, epoch, Ask)])
      ensures !(r.None? && threads[t].Polling?) ==>
          pending == old(pending) && activeOperations == old(activeOperations) && history == old(history)
      ensures r.None? && threads[t].Polling? ==>
          && activeOperations == old(activeOperations) + 1
          && pending == old(pending).(nextPoll := clock + old(pending).interval, polling := true)
          && history == old(history).(requests := old(history).requests + [Request(epoch, clock, pending.interval)])
    {
      hide Inv, GenerationAt;
      r := None;
      if !Pollable(login) {
        r := Some(PollTerminal);
      } else if clock >= pending.expiresAt {
        GenerationNow();
        Advance(t, Serving(generation, epoch, Expired));
      } else if pending.polling || clock < pending.nextPoll {
        r := Some(PollPending);
      } else {
        PollAsk(t);
      }
    }

    /** The right to ask: taken when no poll is under way and the next one is due. */
    method PollAsk(t: ThreadId)
      requires Inv() && t !in threads && pending.ids.Some? && !pending.polling && clock >= pending.nextPoll
      modifies this`threads, this`cast, this`pending, this`activeOperations, this`history
      ensures Inv() && threads == old(threads)[t := Polling(generation, epoch, Ask)]
      ensures activeOperations == old(activeOperations) + 1
      ensures pending == old(pending).(nextPoll := clock + old(pending).interval, polling := true)
      ensures history == old(history).(requests := old(history).requests + [Request(epoch, clock, pending.interval)])
    {
      hide OnStage, PollDiscipline, NoStaleCommit, StoredInPlace, RequestsSpaced, MirrorsVault, AttachIsolated,
           SessionsFollow, LifecycleThread, RefreshSession, GenerationAt, NoWrap, Recast, PartsFree;
      PollAsked(epoch, clock, t, cast.poster, cast.poller, pending, history);
      PollerJoins(t);
      NoteRequest();
      OthersMove(threads, cast, epoch, t, Polling(generation, epoch, Ask));
      Move(t, Polling(generation, epoch, Ask));
      activeOperations := activeOperations + 1;
    }

    /** What a newcomer that polls changes in the cast. */
    lemma PollerJoins(t: ThreadId)
      requires Inv() && t !in threads && (NoWrap(epoch) ==> cast.poller.None?)
      ensures var next := Polling(generation, epoch, Ask);
              && PartsFree(cast, t, next, epoch) && Fresh(next, epoch) && t !in cast.device
              && Recast(cast, t, next, epoch) == cast.(poller := Some(t), device := cast.device + {t})
              && cast.lifecycle != Some(t) && cast.refresher != Some(t)
    {
      hide FlagsTell, PollDiscipline, NoStaleCommit, StoredInPlace, RequestsSpaced, MirrorsVault, AttachIsolated,
           SessionsFollow, GenerationAt, OnStage;
      assert cast == Without(cast, t) && t !in cast.device by { Newcomer(t); }
    }

    /** The request goes on record, and the next one is due an interval later. */
    method NoteRequest()
      modifies this`pending, this`history
      ensures pending == old(pending).(nextPoll := clock + old(pending).interval, polling := true)
      ensures history == old(history).(requests := old(history).requests + [Request(epoch, clock, pending.interval)])
    {
      pending := pending.(nextPoll := clock + pending.interval, polling := true);
      history := history.(requests := history.requests + [Request(epoch, clock, pending.interval)]);
    }

    /** slow_down: five seconds more, from now on. */
    method PollSlowDown(t: ThreadId)
      requires Inv() && t in threads && threads[t].Polling? && threads[t].stage == Ask
      modifies this`threads, this`cast, this`pending, this`history
      ensures Inv() && threads == old(threads)[t := old(threads[t]).(stage := Release)]
      ensures old(threads[t]).gen == generation && old(pending).interval <= 0xFFFF_FFFF - 5 ==>
          && pending == old(pending).(interval := old(pending).interval + 5,
                                      nextPoll := clock + old(pending).interval + 5)
          && history == old(history).(slowDowns := old(history).slowDowns + 1)
      ensures !(old(threads[t]).gen == generation && old(pending).interval <= 0xFFFF_FFFF - 5) ==>
          pending == old(pending) && history == old(history)
    {
      hide Inv, GenerationAt;
      if threads[t].gen == generation && pending.interval <= UINT_MAX - 5 { SlowDown(); }
      StayInCall(t, threads[t].(stage := Release));
    }

    method SlowDown()
      requires Inv()
      modifies this`pending, this`history
      ensures Inv()
      ensures pending == old(pending).(interval := old(pending).interval + 5,
                                       nextPoll := clock + old(pending).interval + 5)
      ensures history == old(history).(slowDowns := old(history).slowDowns + 1)
    {
      hide OnStage, FlagsTell, PollDiscipline, NoStaleCommit, StoredInPlace, RequestsSpaced, MirrorsVault,
           AttachIsolated, SessionsFollow, GenerationAt;
      SlowedDown(epoch, clock, cast.poster, cast.poller, pending, history);
      pending := pending.(interval := pending.interval + 5, nextPoll := clock + pending.interval + 5);
      history := history.(slowDowns := history.slowDowns + 1);
    }

    /** device_poll_released: the right to ask goes back, unless a newer login has it. */
    method PollReleased(t: ThreadId)
      requires Inv() && t in threads && threads[t].Polling? && threads[t].stage in {Ask, Release}
      modifies this`threads, this`cast, this`pending, this`activeOperations
      ensures Inv() && threads == old(threads) - {t} && activeOperations == old(activeOperations) - 1
      ensures pending == if old(threads[t]).gen == generation then old(pending).(polling := false) else old(pending)
    {
      hide OnStage, NoStaleCommit, StoredInPlace, RequestsSpaced, MirrorsVault, AttachIsolated, SessionsFollow,
           GenerationAt;
      Self(t);
      if threads[t].gen == generation { pending := pending.(polling := false); }
      if activeOperations > 0 { activeOperations := activeOperations - 1; }
      Leave(t);
    }

    /** The answer is in; what follows happens without the lock. */
    method PollAnswered(t: ThreadId, stage: Stage)
      requires Inv() && t in threads && threads[t].Polling?
      requires (threads[t].stage, stage) in {(Ask, Exchange), (Ask, Finish), (Exchange, Finish), (Exchange, Finished)}
      modifies this`threads, this`cast
      ensures Inv() && threads == old(threads)[t := old(threads[t]).(stage := stage)]
    {
      hide Inv, GenerationAt;
      StayInCall(t, threads[t].(stage := stage));
    }

    method PollRedeem(t: ThreadId, staged: Credentials, stored: bool) returns (ok: bool)
      requires Inv() && t in threads && threads[t].Polling? && threads[t].stage == Exchange
      modifies this`threads, this`cast, this`vault, this`credentials, this`tokenVersion, this`history
      ensures Inv() && threads == old(threads)[t := old(threads[t]).(stage := Finish)]
      ensures ok <==> old(threads[t]).gen == generation && !stopRequested && session.Some? && stored
      ensures ok ==>
          && credentials == Some(staged) && vault == old(vault)[session.value := Readable(staged)]
          && tokenVersion == NextGeneration(old(tokenVersion))
          && history == old(history).(commits :=
               old(history).commits + [Commit(old(threads[t]).epoch, epoch, session.value)])
      ensures !ok ==>
          && credentials == old(credentials) && vault == old(vault)
          && tokenVersion == old(tokenVersion) && history == old(history)
    {
      hide Inv, GenerationAt;
      ok := CompleteTokens(t, staged, stored);
      StayInCall(t, threads[t].(stage := Finish));
    }

    /** device_poll_finished */
    method PollFinished(t: ThreadId)
      requires Inv() && t in threads && EndsLogin(threads[t])
      modifies this`threads, this`cast, this`callbackActive, this`pending
      ensures Inv()
      ensures threads == if old(threads[t]).Serving? then old(threads) - {t}
          else old(threads)[t := old(threads[t]).(stage := Finished)]
      ensures old(threads[t]).gen == generation ==> !callbackActive && pending == NO_LOGIN
      ensures old(threads[t]).gen != generation ==> callbackActive == old(callbackActive) && pending == old(pending)
    {
      hide Inv, GenerationAt;
      if threads[t].gen == generation {
        callbackActive := false;
        ClearPending(None);
      }
      if threads[t].Serving? {
        Retire(t);
      } else {
        StayInCall(t, threads[t].(stage := Finished));
      }
    }

    // ----- attach, logout, cancel: one at a time, after everybody else -----

    /** The lifecycle operation takes its flag. */
    method OperationBegin(t: ThreadId, kind: Lifecycle)
      requires Inv() && t !in threads && !lifecycleBusy && openings[epoch].attaching == TargetOf(kind)
      modifies this`threads, this`cast, this`lifecycleBusy
      ensures Inv() && threads == old(threads)[t := Operating(Draining(kind))] && lifecycleBusy
    {
      hide OnStage, PollDiscipline, NoStaleCommit, StoredInPlace, RequestsSpaced, MirrorsVault, GenerationAt;
      assert t !in cast.device && cast.lifecycle != Some(t) && Without(cast, t) == cast by { Newcomer(t); }
      Move(t, Operating(Draining(kind)));
      lifecycleBusy := true;
    }

    /** ... and gives it back. */
    method OperationEnd(t: ThreadId)
      requires Inv() && t in threads && threads[t].Operating?
      modifies this`threads, this`cast, this`lifecycleBusy
      ensures Inv() && threads == old(threads) - {t} && !lifecycleBusy
    {
      hide OnStage, PollDiscipline, NoStaleCommit, StoredInPlace, RequestsSpaced, MirrorsVault, GenerationAt;
      Self(t);
      Leave(t);
      lifecycleBusy := false;
    }

    /** No operation is under way when nobody has the flag. */
    lemma NobodyAttaches()
      requires Inv() && !lifecycleBusy
      ensures Attaching().None? && |openings| == epoch + 1
    {
    }

    /** The first section of attach, logout and cancel. */
    method LifecycleBegin(t: ThreadId, kind: Lifecycle) returns (ok: bool)
      requires Inv() && t !in threads
      modifies this`threads, this`cast, this`lifecycleBusy, this`threadJoinable
      modifies this`generation, this`epoch, this`openings, this`stopRequested, this`callbackActive, this`pending
      ensures Inv()
      ensures ok <==>
          && !destroying && !old(lifecycleBusy)
          && (kind.CancelLogin? ==> old(callbackActive) && loginId == Some(kind.login))
      ensures ok ==>
          && lifecycleBusy && threads == old(threads)[t := Operating(Draining(kind))] && !threadJoinable
          && epoch == old(epoch) + 1 && generation == NextGeneration(old(generation)) && stopRequested
          && !callbackActive && pending == NO_LOGIN && openings == old(openings) + [Opening(session, TargetOf(kind))]
      ensures !ok ==>
          && openings == old(openings)
          && lifecycleBusy == old(lifecycleBusy) && threads == old(threads) && threadJoinable == old(threadJoinable)
          && epoch == old(epoch) && generation == old(generation) && stopRequested == old(stopRequested)
          && callbackActive == old(callbackActive) && pending == old(pending)
    {
      hide Inv, GenerationAt;
      ok := !destroying && !lifecycleBusy && (kind.CancelLogin? ==> callbackActive && loginId == Some(kind.login));
      if ok {
        NobodyAttaches();
        CancelCallback(TargetOf(kind));
        OperationBegin(t, kind);
        threadJoinable := false;
      }
    }

    /** The join or the wait failed. */
    method LifecycleAbort(t: ThreadId)
      requires Inv() && t in threads && threads[t].Operating? && threads[t].work.Draining?
      modifies this`threads, this`cast, this`lifecycleBusy
      ensures Inv() && threads == old(threads) - {t} && !lifecycleBusy
    {
      hide Inv, GenerationAt;
      OperationEnd(t);
    }

    /** What the wait of attach, logout, cancel and destroy is for: when it is over, nobody is at the network. */
    predicate Quiet()
      reads this`refreshInProgress, this`activeOperations
    {
      !refreshInProgress && activeOperations == 0
    }

    method LogoutEnd(t: ThreadId, deleted: bool) returns (ok: bool)
      requires Inv() && t in threads && threads[t] == Operating(Draining(Logout))
      requires !refreshInProgress && activeOperations == 0
      modifies this`threads, this`cast, this`lifecycleBusy, this`vault, this`credentials
      modifies this`pending, this`loginId, this`stopRequested, this`lastRefreshResult
      ensures Inv() && threads == old(threads) - {t} && !lifecycleBusy
      ensures ok <==> session.Some? && deleted
      ensures ok ==> credentials.None? && vault == old(vault) - {session.value}
      ensures !ok ==> credentials == old(credentials) && vault == old(vault)
      ensures pending == NO_LOGIN && loginId.None? && !stopRequested && lastRefreshResult == SignedOut
    {
      hide Inv, GenerationAt;
      ok := false;
      if session.Some? { ok := DeleteAndClear(deleted); }
      ClearPending(None);
      loginId, stopRequested, lastRefreshResult := None, false, SignedOut;
      OperationEnd(t);
    }

    method CancelEnd(t: ThreadId)
      requires Inv() && t in threads && threads[t].Operating? && threads[t].work.Draining?
      requires threads[t].work.kind.CancelLogin? && !refreshInProgress && activeOperations == 0
      modifies this`threads, this`cast, this`lifecycleBusy, this`loginId, this`stopRequested
      ensures Inv() && threads == old(threads) - {t} && !lifecycleBusy && loginId.None? && !stopRequested
    {
      hide Inv, GenerationAt;
      loginId, stopRequested := None, false;
      OperationEnd(t);
    }

    method AttachDetach(t: ThreadId)
      requires Inv() && t in threads && threads[t].Operating? && threads[t].work.Draining?
      requires threads[t].work.kind.Attach? && !refreshInProgress && activeOperations == 0
      modifies this`threads, this`cast, this`session, this`credentials, this`loginId
      ensures Inv() && threads == old(threads)[t := Operating(Loading(old(threads[t]).work.kind.target))]
      ensures session.None? && credentials.None? && loginId.None?
    {
      hide OnStage, PollDiscipline, NoStaleCommit, StoredInPlace, RequestsSpaced, GenerationAt;
      Self(t);
      session, credentials, loginId := None, None, None;
      Move(t, Operating(Loading(threads[t].work.kind.target)));
    }

    /** Reading the target's entry needs no lock. A missing entry, or no target, is no credentials; anything that
        cannot be read is an error. */
    method AttachRead(t: ThreadId, readable: bool) returns (loaded: Result<Option<Credentials>>)
      requires Inv() && t in threads && threads[t].Operating? && threads[t].work.Loading?
      modifies this`threads, this`cast
      ensures Inv()
      ensures var attached := old(threads[t]).work.attached;
              && threads == old(threads)[t := Operating(Loaded(attached, loaded))]
              && (attached.None? ==> loaded == Ok(None))
              && (attached.Some? && !readable ==> loaded == Err)
              && (attached.Some? && readable && attached.value !in vault ==> loaded == Ok(None))
              && (attached.Some? && readable && attached.value in vault ==>
                    loaded == match vault[attached.value] case Readable(c) => Ok(Some(c)) case Unreadable => Err)
    {
      hide OnStage, PollDiscipline, NoStaleCommit, StoredInPlace, RequestsSpaced, GenerationAt;
      Self(t);
      loaded := Stored(threads[t].work.attached, readable);
      Move(t, Operating(Loaded(threads[t].work.attached, loaded)));
    }

    function Stored(target: Option<SessionId>, readable: bool): Result<Option<Credentials>>
      reads this`vault
    {
      if target.None? then Ok(None)
      else if !readable then Err
      else if target.value !in vault then Ok(None)
      else if vault[target.value].Readable? then Ok(Some(vault[target.value].credentials))
      else Err
    }

    method AttachCommit(t: ThreadId) returns (ok: bool)
      requires Inv() && t in threads && threads[t].Operating? && threads[t].work.Loaded?
      modifies this`threads, this`cast, this`lifecycleBusy, this`session, this`credentials, this`tokenVersion
      modifies this`stopRequested
      ensures Inv() && threads == old(threads) - {t} && !lifecycleBusy
      ensures destroying ==>
          && !ok && session == old(session) && credentials == old(credentials)
          && tokenVersion == old(tokenVersion) && stopRequested == old(stopRequested)
      ensures !destroying ==>
          var work := old(threads[t]).work;
          && session == work.attached && !stopRequested && (ok <==> work.loaded.Ok?)
          && credentials == (if work.loaded.Ok? then work.loaded.value else None)
          && tokenVersion == if credentials.Some? then NextGeneration(old(tokenVersion)) else old(tokenVersion)
    {
      hide OnStage, PollDiscipline, NoStaleCommit, StoredInPlace, RequestsSpaced, GenerationAt;
      Self(t);
      var work := threads[t].work;
      assert openings[epoch].attaching == Some(work.attached) && !refreshInProgress;
      assert work.loaded.Ok? ==> MirrorsVault(work.loaded.value, work.attached, vault);
      OperationEnd(t);
      if destroying { return false; }
      stopRequested, ok := false, work.loaded.Ok?;
      Install(work.attached, Brought(work.loaded));
    }

    /** The session is there, and so is what has been read for it. */
    method Install(attached: Option<SessionId>, brought: Option<Credentials>)
      requires Inv() && session.None? && credentials.None? && !lifecycleBusy && !refreshInProgress
      requires openings[epoch].attaching == Some(attached) && MirrorsVault(brought, attached, vault)
      modifies this`session, this`credentials, this`tokenVersion
      ensures Inv() && session == attached && credentials == brought
      ensures tokenVersion == if brought.Some? then NextGeneration(old(tokenVersion)) else old(tokenVersion)
    {
      hide OnStage, PollDiscipline, NoStaleCommit, StoredInPlace, RequestsSpaced, GenerationAt;
      session := attached;
      if brought.Some? {
        credentials, tokenVersion := brought, NextGeneration(tokenVersion);
      }
    }

    // ----- destroy -----

    method DestroyBegin(t: ThreadId)
      requires Inv() && t !in threads
      modifies this`threads, this`cast, this`destroying, this`threadJoinable
      modifies this`generation, this`epoch, this`openings, this`stopRequested, this`callbackActive, this`pending
      ensures Inv() && threads == old(threads)[t := Waiting(DestroyWait)] && destroying && !threadJoinable
      ensures epoch == old(epoch) + 1 && generation == NextGeneration(old(generation))
      ensures openings == old(openings) + [Opening(session, old(Attaching()))]
      ensures stopRequested && !callbackActive && pending == NO_LOGIN
    {
      hide Inv, GenerationAt;
      destroying := true;
      CancelCallback(Attaching());
      threadJoinable := false;
      Advance(t, Waiting(DestroyWait));
    }

    /** The manager goes when nobody is at work any more, or when the wait for that fails. */
    method DestroyEnd(t: ThreadId, waitFailed: bool)
      requires Inv() && t in threads && threads[t] == Waiting(DestroyWait)
      requires waitFailed || (!refreshInProgress && activeOperations == 0 && !lifecycleBusy)
      modifies this`threads, this`cast, this`session, this`credentials, this`loginId, this`pending, this`freed
      ensures Inv() && threads == old(threads) - {t} && freed
      ensures session.None? && credentials.None? && loginId.None? && pending == NO_LOGIN
    {
      hide Inv, GenerationAt;
      Retire(t);
      ClearPending(None);
      Forget();
      loginId, freed := None, true;
    }

    method Forget()
      requires Inv()
      modifies this`session, this`credentials
      ensures Inv() && session.None? && credentials.None?
    {
      hide OnStage, FlagsTell, PollDiscipline, NoStaleCommit, StoredInPlace, RequestsSpaced, GenerationAt;
      session, credentials := None, None;
    }

    method Tick(now: Time)
      requires Inv() && now >= clock
      modifies this`clock
      ensures Inv() && clock == now
    {
      hide OnStage, FlagsTell, PollDiscipline, NoStaleCommit, StoredInPlace, MirrorsVault, AttachIsolated,
           SessionsFollow, GenerationAt;
      clock := now;
    }

    // ----- every run -----

    /** Any number of sections of any threads in any order, with whatever the network, the storage and the clock
        do in between, until somebody frees the manager. The record of commits and openings only grows. */
    method Run(steps: nat)
      requires Inv()
      modifies this
      ensures Inv() && old(history).commits <= history.commits && old(openings) <= openings
    {
      hide Inv;
      var left := steps;
      while left > 0
        invariant Inv() && old(history).commits <= history.commits && old(openings) <= openings
      {
        left := left - 1;
        if freed { return; }
        var t: ThreadId := *;
        if t !in threads {
          EnterStep(t);
        } else {
          match threads[t]
          case Waiting(_) => WaitStep(t);
          case Refreshing(_, _, _) =>
            var exchange: TokenResult, staged: Credentials, stored: bool := *, *, *;
            var r := RefreshFinish(t, exchange, staged, stored);
          case Serving(_, _, _) => ServeStep(t);
          case Starting(_, _, _) => DeviceStartStep(t);
          case Polling(_, _, _) => PollStep(t);
          case Operating(_) => OperateStep(t);
        }
        var now: Time := *;
        if now >= clock { Tick(now); }
      }
    }

    /** A thread calls one of the manager's functions. */
    method EnterStep(t: ThreadId)
      requires Inv() && t !in threads
      modifies this
      ensures Inv() && old(history).commits <= history.commits && old(openings) <= openings
    {
      hide Inv;
      var choice: nat := *;
      if choice == 0 {
        var force: bool, rejected: Option<string> := *, *;
        var r, token := TokenEnter(t, force, rejected);
      } else if choice == 1 {
        var ok := StartReap(t);
      } else if choice == 2 {
        var login: string := *;
        var r := PollBegin(t, login);
      } else if choice == 3 {
        var kind: Lifecycle := *;
        var ok := LifecycleBegin(t, kind);
      } else {
        DestroyBegin(t);
      }
    }

    method WaitStep(t: ThreadId)
      requires Inv() && t in threads && threads[t].Waiting?
      modifies this
      ensures Inv() && old(history).commits <= history.commits && old(openings) <= openings
    {
      hide Inv;
      match threads[t].place
      case RefreshWait(_, _) =>
        var r, token := RefreshWake(t);
      case Reaped =>
        var device: bool, state: string, id: string, server: Option<ThreadId> := *, *, *, *;
        if device {
          var ok := DeviceStartBegin(t, id);
        } else if server.Some? ==> server.value !in threads {
          var ok := StartBegin(t, state, id, server);
        }
      case StartWait =>
        var waitFailed: bool := *;
        if callbackReady || waitFailed { var ready := StartReady(t, waitFailed); }
      case StartJoin => StartCleanup(t);
      case DestroyWait =>
        var waitFailed: bool := *;
        if waitFailed || (Quiet() && !lifecycleBusy) { DestroyEnd(t, waitFailed); }
    }

    method ServeStep(t: ThreadId)
      requires Inv() && t in threads && threads[t].Serving?
      modifies this
      ensures Inv() && old(history).commits <= history.commits && old(openings) <= openings
    {
      hide Inv;
      var giveUp: bool := *;
      if giveUp && threads[t].duty in {Open, Listen, Redeem} {
        CallbackGiveUp(t);
        return;
      }
      match threads[t].duty
      case Open =>
        var listening: bool := *;
        CallbackPublish(t, listening);
      case OpenFailed => CallbackPublishFailure(t);
      case Listen =>
        var state: string, denied: bool := *, *;
        var valid := CallbackState(t, state, denied);
      case Redeem =>
        var staged: Credentials, stored: bool := *, *;
        var ok := CallbackRedeem(t, staged, stored);
      case CloseDown => CallbackFinish(t);
      case Expired => PollFinished(t);
    }

    method DeviceStartStep(t: ThreadId)
      requires Inv() && t in threads && threads[t].Starting?
      modifies this
      ensures Inv() && old(history).commits <= history.commits && old(openings) <= openings
    {
      hide Inv;
      match threads[t].progress
      case Register =>
        var answer: Option<Grant>, now: Time := *, *;
        var ok := DevicePublish(t, answer, now);
      case RegisterFailed => DeviceStartFailed(t);
      case Returning => ActiveOperationFinish(t);
    }

    method PollStep(t: ThreadId)
      requires Inv() && t in threads && threads[t].Polling?
      modifies this
      ensures Inv() && old(history).commits <= history.commits && old(openings) <= openings
    {
      hide Inv;
      var choice: nat := *;
      match threads[t].stage
      case Ask =>
        if choice == 0 { PollReleased(t); }
        else if choice == 1 { PollSlowDown(t); }
        else if choice == 2 { PollAnswered(t, Exchange); }
        else { PollAnswered(t, Finish); }
      case Release => PollReleased(t);
      case Exchange =>
        if choice == 0 { PollAnswered(t, Finish); }
        else if choice == 1 { PollAnswered(t, Finished); }
        else {
          var staged: Credentials, stored: bool := *, *;
          var ok := PollRedeem(t, staged, stored);
        }
      case Finish => PollFinished(t);
      case Finished => ActiveOperationFinish(t);
    }

    method OperateStep(t: ThreadId)
      requires Inv() && t in threads && threads[t].Operating?
      modifies this
      ensures Inv() && old(history).commits <= history.commits && old(openings) <= openings
    {
      hide Inv;
      var success: bool := *;
      match threads[t].work
      case Draining(kind) =>
        if !success { LifecycleAbort(t); }
        else if Quiet() {
          match kind
          case Attach(_) => AttachDetach(t);
          case Logout =>
            var deleted: bool := *;
            var ok := LogoutEnd(t, deleted);
          case CancelLogin(_) => CancelEnd(t);
        }
      case Loading(_) =>
        var loaded := AttachRead(t, success);
      case Loaded(_, _) =>
        var ok := AttachCommit(t);
    }

    // ----- what the invariant says to a reader -----

    /** Single flight: never two threads in the refresh exchange, and the flag is up exactly when there is one. */
    lemma SingleFlight()
      requires Inv()
      ensures refreshInProgress <==> exists t :: t in threads && threads[t].Refreshing?
      ensures forall t, u | t in threads && u in threads && threads[t].Refreshing? && threads[u].Refreshing? :: t == u
    {
      hide Fresh, NoWrap, PollDiscipline, NoStaleCommit, StoredInPlace, RequestsSpaced, MirrorsVault, AttachIsolated,
           SessionsFollow;
      if refreshInProgress {
        var t := cast.refresher.value;
        assert Plays(t, threads[t], cast, epoch);
      }
      forall t | t in threads && threads[t].Refreshing? ensures cast.refresher == Some(t) {
        assert Plays(t, threads[t], cast, epoch);
      }
    }

    /** active_operations is the number of device calls in flight. */
    lemma ExactAccounting()
      requires Inv()
      ensures activeOperations == |set t | t in threads && (threads[t].Starting? || threads[t].Polling?)|
    {
      hide Fresh, NoWrap, PollDiscipline, NoStaleCommit, StoredInPlace, RequestsSpaced, MirrorsVault, AttachIsolated,
           SessionsFollow;
      var calls := set t | t in threads && (threads[t].Starting? || threads[t].Polling?);
      forall t | t in threads ensures t in calls <==> t in cast.device {
        assert Plays(t, threads[t], cast, epoch);
      }
      assert calls == cast.device;
    }

    /** Past a wait of attach, logout, cancel or destroy that did not fail, nobody is in the refresh exchange or in a
        device call. */
    lemma QuietMeansAlone(t: ThreadId)
      requires Inv() && !refreshInProgress && activeOperations == 0 && t in threads
      ensures !threads[t].Refreshing? && !threads[t].Starting? && !threads[t].Polling?
    {
      hide Fresh, NoWrap, PollDiscipline, NoStaleCommit, StoredInPlace, RequestsSpaced, MirrorsVault, AttachIsolated,
           SessionsFollow;
      assert Plays(t, threads[t], cast, epoch);
    }

    /** Section 3.5 of RFC 8628: until the generation counter wraps, any two token requests of one login are at least
        the interval apart that was in force at the later one. */
    lemma RequestsApart(i: nat, j: nat)
      requires Inv() && NoWrap(epoch) && i < j < |history.requests|
      requires history.requests[i].epoch == history.requests[j].epoch
      ensures history.requests[j].time >= history.requests[i].time + history.requests[j].interval
    {
      hide OnStage, FlagsTell, PollDiscipline, NoStaleCommit, StoredInPlace, MirrorsVault, AttachIsolated,
           SessionsFollow, GenerationAt;
      assert history.requests[j - 1].epoch == history.requests[j].epoch;
    }

    /** Until the generation counter wraps, tokens are only ever stored for the session that was attached when the
        generation began that their login or refresh belongs to, or for the one that an attach under way at that
        moment was going to. */
    lemma StoredWhereBegun(c: Commit)
      requires Inv() && NoWrap(epoch) && c in history.commits
      ensures c.captured < |openings| && LeadsTo(openings[c.captured], c.session)
      ensures openings[c.captured].attaching.None? ==> openings[c.captured].session == Some(c.session)
    {
      hide OnStage, FlagsTell, PollDiscipline, RequestsSpaced, MirrorsVault, AttachIsolated, GenerationAt;
      assert c.captured == c.at;
    }

    lemma UnderWay(t: ThreadId)
      requires Inv() && t in threads && threads[t].Operating?
      ensures Attaching() == AttachTarget(Some(threads[t]))
    {
      hide PollDiscipline, NoStaleCommit, StoredInPlace, RequestsSpaced, MirrorsVault, AttachIsolated, GenerationAt;
      Self(t);
    }

    /** The sections of an attach after the first, for a session nothing is stored for. */
    method AttachRest(t: ThreadId, a: SessionId)
      requires Inv() && t in threads && threads[t] == Operating(Draining(Attach(Some(a))))
      requires !refreshInProgress && activeOperations == 0 && !destroying && a !in vault
      modifies this`threads, this`cast, this`lifecycleBusy, this`session, this`credentials, this`loginId
      modifies this`tokenVersion, this`stopRequested
      ensures Inv() && threads == old(threads) - {t} && session == Some(a) && !lifecycleBusy && !stopRequested
    {
      hide Inv, GenerationAt;
      AttachDetach(t);
      var loaded := AttachRead(t, true);
      var ok := AttachCommit(t);
    }

    method AttachAlone(t: ThreadId, a: SessionId)
      requires Inv() && t !in threads && !destroying && !lifecycleBusy && a !in vault
      requires !refreshInProgress && activeOperations == 0
      modifies this`threads, this`cast, this`lifecycleBusy, this`session, this`credentials, this`loginId
      modifies this`tokenVersion, this`stopRequested
      modifies this`generation, this`epoch, this`openings, this`callbackActive, this`pending, this`threadJoinable
      ensures Inv() && threads == old(threads) && epoch == old(epoch) + 1
      ensures session == Some(a) && !lifecycleBusy && !callbackActive
    {
      hide Inv, GenerationAt;
      var ok := LifecycleBegin(t, Attach(Some(a)));
      AttachRest(t, a);
    }

    /** A login between whose first two sections an attach begins. */
    method LoginDuringAttach(b: SessionId)
      requires Inv() && threads == map[] && session.Some? && !destroying && !lifecycleBusy && !callbackActive
      modifies this`threads, this`cast, this`lifecycleBusy, this`threadJoinable, this`generation, this`epoch
      modifies this`openings
      modifies this`stopRequested, this`callbackActive, this`loginId, this`pending, this`callbackReady, this`callbackRc
      ensures Inv() && epoch == old(epoch) + 2 && pending.state == Some("state")
      ensures 1 in threads && threads[1] == Operating(Draining(Attach(Some(b))))
      ensures 3 in threads && threads[3] == Serving(generation, epoch, Open)
      ensures |openings| == epoch + 1 && openings[epoch] == Opening(session, Some(Some(b)))
    {
      hide Inv, GenerationAt;
      var ok := StartReap(0);
      ok := LifecycleBegin(1, Attach(Some(b)));
      UnderWay(1);
      OneOpeningEach();
      ok := StartBegin(0, "state", "login", Some(3));
    }

    /** The callback server from its first section to its last with tokens. */
    method CallbackRest(c: ThreadId, staged: Credentials)
      requires Inv() && c in threads && threads[c] == Serving(generation, epoch, Open)
      requires !stopRequested && !destroying && session.Some? && pending.state == Some("state")
      modifies this`threads, this`cast, this`callbackReady, this`callbackRc, this`pending
      modifies this`vault, this`credentials, this`tokenVersion, this`history
      ensures Inv() && vault == old(vault)[session.value := Readable(staged)]
      ensures history.commits == old(history).commits + [Commit(epoch, epoch, session.value)]
    {
      hide Inv, GenerationAt;
      CallbackPublish(c, true);
      var ok := CallbackState(c, "state", false);
      ok := CallbackRedeem(c, staged, true);
    }

    lemma OneOpeningEach()
      requires Inv()
      ensures |openings| == epoch + 1
    {
    }

    /** With an attach under way when a login begins it can come to that: the login began with session a attached, its
        tokens are stored for b. The login was past its first section when the attach began, and the second does not
        look at lifecycle_busy. */
    method StoredElsewhere(a: SessionId, b: SessionId, staged: Credentials)
      requires Inv() && threads == map[] && !destroying && !lifecycleBusy && a !in vault && b !in vault
      requires !refreshInProgress && activeOperations == 0
      modifies this
      ensures Inv() && epoch == old(epoch) + 3
      ensures history.commits == old(history).commits + [Commit(epoch, epoch, b)]
      ensures vault == old(vault)[b := Readable(staged)]
      ensures |openings| == epoch + 1 && openings[epoch] == Opening(Some(a), Some(Some(b)))
    {
      hide Inv, GenerationAt;
      AttachAlone(1, a);
      LoginDuringAttach(b);
      AttachRest(1, b);
      CallbackRest(3, staged);
    }

    /** Until the generation counter wraps, at most one poll of a login is in flight. */
    lemma OnePoll(t: ThreadId, u: ThreadId)
      requires Inv() && NoWrap(epoch) && t in threads && u in threads
      requires threads[t].Polling? && threads[u].Polling? && threads[t].gen == threads[u].gen == generation
      ensures t == u
    {
      Self(t);
      Self(u);
    }
  }

  lemma PollAsked(epoch: nat, clock: Time, t: ThreadId, poster: Option<ThreadId>, poller: Option<ThreadId>,
                  pending: Pending, history: History)
    requires PollDiscipline(epoch, poster, poller, pending, history) && RequestsSpaced(history.requests, epoch, clock)
    requires pending.ids.Some? && !pending.polling && clock >= pending.nextPoll
    ensures NoWrap(epoch) ==> poster.None? && poller.None?
    ensures var requests := history.requests + [Request(epoch, clock, pending.interval)];
            && RequestsSpaced(requests, epoch, clock)
            && PollDiscipline(epoch, poster, Some(t), pending.(nextPoll := clock + pending.interval, polling := true),
                              history.(requests := requests))
  {
  }

  lemma SlowedDown(epoch: nat, clock: Time, poster: Option<ThreadId>, poller: Option<ThreadId>, pending: Pending,
                   history: History)
    requires PollDiscipline(epoch, poster, poller, pending, history) && RequestsSpaced(history.requests, epoch, clock)
    ensures PollDiscipline(epoch, poster, poller,
                           pending.(interval := pending.interval + 5, nextPoll := clock + pending.interval + 5),
                           history.(slowDowns := history.slowDowns + 1))
  {
  }

  function Brought(loaded: Result<Option<Credentials>>): Option<Credentials> {
    if loaded.Ok? then loaded.value else None
  }

  /** How much thread t adds to the device calls in flight. */
  ghost function Counts(cast: Cast, t: ThreadId): nat {
    if t in cast.device then 1 else 0
  }
}
