/**
 The threads of the OAuth manager, seen from outside its lock: where each one is between two
 critical sections, what it has captured, and who plays which part. Everything here is about
 values; the manager itself is in module OAuthManager.
 */
module OAuthThreads {
  import opened Wrappers

  const UINT64_MAX := 0xFFFF_FFFF_FFFF_FFFF

  type Time = int
  type ThreadId = nat
  type SessionId = int

  datatype Credentials = Credentials(access: string, refresh: string, account: Option<string>, plan: Option<string>,
                                     expiresAt: Time)

  datatype Lifecycle = Attach(target: Option<SessionId>) | Logout | CancelLogin(login: string)

  /** Where a thread is between two critical sections. `gen` is the generation it captured. For the specification
      only, `epoch` repeats how often the generation had changed by then and `session` what was attached. */
  datatype Thread =
    | Waiting(place: Place)
    | Refreshing(gen: nat, epoch: nat, session: SessionId)       // exchanging the refresh token
    | Serving(gen: nat, epoch: nat, duty: Duty)                  // the callback server, or a poll that came too late
    | Starting(gen: nat, epoch: nat, progress: Progress)         // device start
    | Polling(gen: nat, epoch: nat, stage: Stage)                // device poll, once it has the right to ask
    | Operating(work: Work)                                      // attach, logout or cancel

  datatype Place =
    | RefreshWait(force: bool, observed: nat)         // behind somebody else's refresh
    | Reaped                                          // a login start between its first two sections
    | StartWait                                       // ... waiting for the callback server to listen
    | StartJoin                                       // ... after the server failed to
    | DestroyWait

  datatype Duty = Open | OpenFailed | Listen | Redeem | CloseDown | Expired
  datatype Progress = Register | RegisterFailed | Returning
  datatype Stage = Ask | Release | Exchange | Finish | Finished

  datatype Work =
    | Draining(kind: Lifecycle)                       // waiting for refreshes and device calls to end
    | Loading(attached: Option<SessionId>)            // attach between the old session and the new one
    | Loaded(attached: Option<SessionId>, loaded: Result<Option<Credentials>>)

  type Threads = map<ThreadId, Thread>

  /** Threads that hold a generation they captured earlier. */
  predicate Captured(t: Thread) {
    !t.Waiting? && !t.Operating?
  }

  /** Threads inside a device call, counted in active_operations. */
  predicate InDeviceCall(t: Thread) {
    t.Starting? || t.Polling?
  }

  /** An attach that has dropped the old session and not yet installed the new one. */
  predicate Detached(t: Thread) {
    t.Operating? && !t.work.Draining?
  }

  /** Threads with only active_operation_finish left to do. */
  predicate Returns(t: Thread) {
    (t.Starting? && t.progress == Returning) || (t.Polling? && t.stage == Finished)
  }

  /** Threads with device_poll_finished to do next. */
  predicate EndsLogin(t: Thread) {
    (t.Serving? && t.duty == Expired) || (t.Polling? && t.stage == Finish)
  }

  /** Threads that play no part in anything that is counted. */
  predicate Bystander(t: Thread) {
    t.Waiting? || t.Serving?
  }

  // ----- the generation counter -----

  function NextGeneration(value: nat): nat {
    if value == UINT64_MAX then 1 else value + 1
  }

  /** The counter after a number of changes, starting from 0. */
  function GenerationAt(epoch: nat): nat {
    if epoch == 0 then 0 else NextGeneration(GenerationAt(epoch - 1))
  }

  /** "The counter has not wrapped." */
  predicate NoWrap(epoch: nat) {
    epoch <= UINT64_MAX
  }

  lemma {:induction false} GenerationValue(epoch: nat)
    ensures GenerationAt(epoch) == if epoch == 0 then 0 else (epoch - 1) % 0xFFFF_FFFF_FFFF_FFFF + 1
  {
    if epoch > 1 {
      GenerationValue(epoch - 1);
      var q, r := (epoch - 2) / UINT64_MAX, (epoch - 2) % UINT64_MAX;
      assert epoch - 2 == q * UINT64_MAX + r;
      if r == UINT64_MAX - 1 {
        assert epoch - 1 == (q + 1) * UINT64_MAX;
        ModOf(q + 1, 0, epoch - 1);
      } else {
        ModOf(q, r + 1, epoch - 1);
      }
    }
  }

  lemma ModOf(q: nat, r: nat, n: nat)
    requires r < UINT64_MAX && n == q * UINT64_MAX + r
    ensures n % UINT64_MAX == r
  {
  }

  /** A captured generation is mistaken for the current one exactly when the number of changes in
      between is a multiple of 2^64 - 1; fewer changes than that never go unnoticed. */
  lemma StaleGenerationExact(captured: nat, current: nat)
    requires 0 < captured <= current
    ensures GenerationAt(captured) == GenerationAt(current) <==> (current - captured) % UINT64_MAX == 0
    ensures GenerationAt(captured) == GenerationAt(current) && captured != current ==> current - captured >= UINT64_MAX
  {
    GenerationValue(captured);
    GenerationValue(current);
    hide GenerationAt;
    var q1, r1 := (captured - 1) / UINT64_MAX, (captured - 1) % UINT64_MAX;
    var q2, r2 := (current - 1) / UINT64_MAX, (current - 1) % UINT64_MAX;
    assert current - captured == (q2 - q1) * UINT64_MAX + (r2 - r1);
    if r1 == r2 {
      ModOf(q2 - q1, 0, current - captured);
    } else if r1 < r2 {
      ModOf(q2 - q1, r2 - r1, current - captured);
    } else {
      ModOf(q2 - q1 - 1, UINT64_MAX + r2 - r1, current - captured);
    }
  }

  lemma SmallMod(n: nat)
    requires n < UINT64_MAX
    ensures n % UINT64_MAX == n
  {
    ModOf(0, n, n);
  }

  /** As long as the counter has not wrapped, equal generations are the same generation. */
  lemma SameGeneration(captured: nat, current: nat)
    requires captured <= current
    ensures NoWrap(current) ==> (GenerationAt(captured) == GenerationAt(current) <==> captured == current)
  {
    if NoWrap(current) {
      GenerationValue(captured);
      GenerationValue(current);
      if captured > 0 { SmallMod(captured - 1); }
      if current > 0 { SmallMod(current - 1); }
    }
  }

  // ----- who plays which part -----

  /** The one refresher, the one lifecycle operation, the device start and the device poll of the
      current generation, and everybody inside a device call. */
  datatype Cast = Cast(refresher: Option<ThreadId>, lifecycle: Option<ThreadId>, poster: Option<ThreadId>,
                       poller: Option<ThreadId>, device: set<ThreadId>)

  const NOBODY := Cast(None, None, None, None, {})

  predicate Registering(t: Thread, epoch: nat) {
    t.Starting? && t.progress.Register? && t.epoch == epoch
  }

  predicate PollingNow(t: Thread, epoch: nat) {
    t.Polling? && t.epoch == epoch
  }

  predicate Plays(t: ThreadId, thread: Thread, cast: Cast, epoch: nat) {
    && (thread.Refreshing? <==> cast.refresher == Some(t))
    && (thread.Operating? <==> cast.lifecycle == Some(t))
    && (Registering(thread, epoch) <==> cast.poster == Some(t))
    && (cast.poller == Some(t) ==> PollingNow(thread, epoch))
    && (NoWrap(epoch) && PollingNow(thread, epoch) ==> cast.poller == Some(t))
    && (InDeviceCall(thread) <==> t in cast.device)
    && Fresh(thread, epoch)
  }

  /** A captured generation is the counter's value at an epoch that has been. */
  predicate Fresh(thread: Thread, epoch: nat) {
    Captured(thread) ==> thread.epoch <= epoch && thread.gen == GenerationAt(thread.epoch)
  }

  /** The cast is exactly the threads that play a part. */
  ghost predicate Played(threads: Threads, cast: Cast, epoch: nat) {
    && (forall t | t in threads :: Plays(t, threads[t], cast, epoch))
    && OnStage(threads, cast)
  }

  predicate OnStage(threads: Threads, cast: Cast) {
    && cast.device <= threads.Keys
    && (cast.refresher.Some? ==> cast.refresher.value in threads)
    && (cast.lifecycle.Some? ==> cast.lifecycle.value in threads)
    && (cast.poster.Some? ==> cast.poster.value in threads)
    && (cast.poller.Some? ==> cast.poller.value in threads)
  }

  function Role(plays: bool, t: ThreadId, before: Option<ThreadId>): Option<ThreadId> {
    if plays then Some(t) else if before == Some(t) then None else before
  }

  /** The cast once thread t has gone on to `next`. */
  function Recast(cast: Cast, t: ThreadId, next: Thread, epoch: nat): Cast {
    Cast(Role(next.Refreshing?, t, cast.refresher),
         Role(next.Operating?, t, cast.lifecycle),
         Role(Registering(next, epoch), t, cast.poster),
         Role(PollingNow(next, epoch), t, cast.poller),
         if InDeviceCall(next) then cast.device + {t} else cast.device - {t})
  }

  /** The cast once thread t has returned to its caller or ended. */
  function Without(cast: Cast, t: ThreadId): Cast {
    Cast(Role(false, t, cast.refresher), Role(false, t, cast.lifecycle), Role(false, t, cast.poster),
         Role(false, t, cast.poller), cast.device - {t})
  }

  /** No one else holds a part that `next` takes up. */
  predicate PartsFree(cast: Cast, t: ThreadId, next: Thread, epoch: nat) {
    && (next.Refreshing? ==> Role(false, t, cast.refresher).None?)
    && (next.Operating? ==> Role(false, t, cast.lifecycle).None?)
    && (Registering(next, epoch) ==> Role(false, t, cast.poster).None?)
    && (NoWrap(epoch) && PollingNow(next, epoch) ==> Role(false, t, cast.poller).None?)
  }

  lemma MoveKeeps(threads: Threads, cast: Cast, epoch: nat, t: ThreadId, next: Thread)
    requires Played(threads, cast, epoch) && PartsFree(cast, t, next, epoch) && Fresh(next, epoch)
    ensures Played(threads[t := next], Recast(cast, t, next, epoch), epoch)
  {
    var threads', cast' := threads[t := next], Recast(cast, t, next, epoch);
    forall u | u in threads' ensures Plays(u, threads'[u], cast', epoch) {
      hide Fresh, GenerationAt, NoWrap;
      if u != t {
        assert threads'[u] == threads[u] && Plays(u, threads[u], cast, epoch);
      }
    }
    hide Plays, Fresh;
  }

  lemma LeaveKeeps(threads: Threads, cast: Cast, epoch: nat, t: ThreadId)
    requires Played(threads, cast, epoch)
    ensures Played(threads - {t}, Without(cast, t), epoch)
  {
    var threads', cast' := threads - {t}, Without(cast, t);
    forall u | u in threads' ensures Plays(u, threads'[u], cast', epoch) {
      hide Fresh, GenerationAt, NoWrap;
      assert threads'[u] == threads[u] && Plays(u, threads[u], cast, epoch);
    }
    hide Plays, Fresh;
  }

  /** A new generation: whoever started or polled for the last one does not count any more. */
  lemma NewGenerationKeeps(threads: Threads, cast: Cast, epoch: nat)
    requires Played(threads, cast, epoch)
    ensures Played(threads, cast.(poster := None, poller := None), epoch + 1)
  {
    var cast' := cast.(poster := None, poller := None);
    forall u | u in threads ensures Plays(u, threads[u], cast', epoch + 1) {
      hide GenerationAt, NoWrap;
      assert Plays(u, threads[u], cast, epoch);
    }
    hide Plays, Fresh;
  }

  lemma BystanderKeeps(threads: Threads, cast: Cast, epoch: nat, t: ThreadId)
    requires Played(threads, cast, epoch) && (t in threads ==> Bystander(threads[t]))
    ensures cast == Without(cast, t)
    ensures forall next | Bystander(next) :: Recast(cast, t, next, epoch) == cast
  {
    hide GenerationAt, NoWrap, Captured;
    if t in threads { PartOf(threads, cast, epoch, t); }
    assert t !in cast.device;
    assert cast.device - {t} == cast.device;
  }

  lemma PartOf(threads: Threads, cast: Cast, epoch: nat, t: ThreadId)
    requires Played(threads, cast, epoch) && t in threads
    ensures Plays(t, threads[t], cast, epoch)
  {
  }

  lemma Counted(device: set<ThreadId>, t: ThreadId)
    ensures |device - {t}| == if t in device then |device| - 1 else |device|
    ensures |device + {t}| == if t in device then |device| else |device| + 1
  {
    if t in device {
      assert device + {t} == device;
    } else {
      assert device - {t} == device;
    }
  }
}
