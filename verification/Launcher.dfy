/** One managed service shared by many terminal clients through a counted lock file. */
module Launcher {
  import opened Basics

  const U32_MAX: nat := 0xFFFF_FFFF
  const SPAWN_WAIT_TIMEOUT_MS: nat := 90_000
  const POLL_MS: nat := 300

  datatype InstanceLock = InstanceLock(dshPid: nat, instances: nat)

  datatype LauncherError = Spawn | Exited | Timeout

  /** What one client keeps: the handle of a child it spawned, and whether the lock counts it. */
  datatype ManagedSession = ManagedSession(id: nat, child: Option<nat>, inLock: bool)

  datatype Acquired = Session(session: ManagedSession) | Failed(error: LauncherError)

  datatype ServiceWait = Ready | ChildExited | TimedOut

  /** A termination request: `stopped` is the answer, `dead` the fact. */
  datatype Kill = Kill(stopped: bool, dead: bool)

  function SatInc(n: nat): nat { if n < U32_MAX then n + 1 else n }

  function SatDec(n: nat): nat { if n > 0 then n - 1 else 0 }

  predicate ReusableLock(lock: InstanceLock, serviceReachable: bool) {
    lock.dshPid != 0 && serviceReachable
  }

  /** What the world does while a child is awaited: poll `k` is answered by `probe(k)` and `exited(k)`,
      and the sleep after it lasts `nap(k)`. */
  datatype Awaited = Awaited(probe: nat -> bool, exited: nat -> bool, nap: nat -> nat)

  ghost predicate Sleeps(w: Awaited) {
    forall k: nat :: w.nap(k) >= POLL_MS
  }

  function Elapsed(w: Awaited, polls: nat): nat {
    if polls == 0 then 0 else Elapsed(w, polls - 1) + w.nap(polls - 1)
  }

  /** Poll `n` is the first that decides: the service answers, the child has exited, or the time is up. */
  ghost predicate Decides(w: Awaited, timeout: nat, n: nat) {
    && (forall k | 0 <= k < n :: !w.probe(k) && !w.exited(k) && Elapsed(w, k) < timeout)
    && (w.probe(n) || w.exited(n) || Elapsed(w, n) >= timeout)
  }

  /** What that poll decides; when the time is up the service is asked once more and the child no more. */
  ghost function Verdict(w: Awaited, timeout: nat, n: nat): ServiceWait {
    if w.probe(n) then Ready else if Elapsed(w, n) < timeout then ChildExited else TimedOut
  }

  lemma OneDecides(w: Awaited, timeout: nat, m: nat, n: nat)
    requires Decides(w, timeout, m) && Decides(w, timeout, n)
    ensures m == n
  {
  }

  lemma NoneElapsed(w: Awaited)
    ensures Elapsed(w, 0) == 0
  {
  }

  lemma OneMoreNap(w: Awaited, n: nat)
    ensures Elapsed(w, n + 1) == Elapsed(w, n) + w.nap(n)
  {
  }

  /** Waits until the service answers, the child exits or the deadline passes, whichever poll comes first;
      the time left is what decreases. */
  method WaitForService(w: Awaited, timeout: nat) returns (result: ServiceWait, polls: nat)
    requires Sleeps(w)
    ensures Decides(w, timeout, polls) && result == Verdict(w, timeout, polls)
    ensures polls * POLL_MS < timeout + POLL_MS
  {
    hide Elapsed;
    var now, deadline := 0, timeout;
    polls := 0;
    NoneElapsed(w);
    while now < deadline
      invariant now == Elapsed(w, polls) && polls * POLL_MS <= now
      invariant polls > 0 ==> (polls - 1) * POLL_MS < timeout
      invariant forall k | 0 <= k < polls :: !w.probe(k) && !w.exited(k) && Elapsed(w, k) < timeout
      decreases deadline - now
    {
      if w.probe(polls) {
        return Ready, polls;
      }
      if w.exited(polls) {
        return ChildExited, polls;
      }
      OneMoreNap(w, polls);
      now := now + w.nap(polls);
      polls := polls + 1;
    }
    result := if w.probe(polls) then Ready else TimedOut;
  }

  class LauncherCoordinator {
    var lock: Option<InstanceLock>
    var serving: Option<nat>   // the process named by the lock, while it answers
    var foreign: bool          // something else answers: a service nobody here manages
    var terminated: seq<nat>   // every process asked to stop, in order

    ghost var handles: map<nat, Option<nat>>  // the counted sessions still attached, and their child handles

    ghost predicate Valid()
      reads this
    {
      && (foreign ==> serving == None)
      && match lock
         case None => handles == map[] && serving == None
         case Some(l) =>
           && l.dshPid != 0 && l.instances == |handles|
           && (serving == None || serving == Some(l.dshPid))
           && (handles != map[] ==> Probe())
           && (forall id <- handles :: handles[id] == None || handles[id] == Some(l.dshPid))
    }

    constructor (foreign: bool)
      ensures Valid() && lock == None && handles == map[] && terminated == [] && this.foreign == foreign
    {
      lock, serving, this.foreign, terminated, handles := None, None, foreign, [], map[];
    }

    predicate Probe()
      reads this
    {
      foreign || serving.Some?
    }

    /** A service of somebody else's comes or goes while the address is free of ours. What counted sessions use
        stays: a service ends only by being terminated. */
    method ForeignService(answers: bool)
      requires Valid() && serving == None && handles == map[]
      modifies `foreign
      ensures Valid() && foreign == answers
    {
      foreign := answers;
    }

    /** The answer to a termination request says nothing about the process. */
    method Terminate(pid: nat, kill: Kill) returns (stopped: bool)
      modifies `serving, `terminated
      ensures stopped == kill.stopped && terminated == old(terminated) + [pid]
      ensures serving == if kill.dead && old(serving) == Some(pid) then None else old(serving)
    {
      terminated := terminated + [pid];
      if kill.dead && serving == Some(pid) {
        serving := None;
      }
      stopped := kill.stopped;
    }

    /** `spawned` is the new child's process id, `None` when nothing could be started; `other` says that somebody
        else's service is what answers in the end. A child that would not die after a failed wait is nobody's. */
    method Acquire(id: nat, spawned: Option<nat>, w: Awaited, other: bool, kill: Kill) returns (r: Acquired)
      requires Valid() && id !in handles && |handles| < U32_MAX
      requires Sleeps(w) && (spawned.Some? ==> spawned.value != 0)
      modifies this
      ensures Valid()
      // Joining: the lock of a service that answers gains one.
      ensures old(lock).Some? && old(Probe()) ==>
                && r == Session(ManagedSession(id, None, true))
                && lock == Some(InstanceLock(old(lock).value.dshPid, old(|handles|) + 1))
                && handles == old(handles)[id := None] && terminated == old(terminated)
                && serving == old(serving) && foreign == old(foreign)
      // Without a lock somebody else's service is used and never counted.
      ensures old(lock) == None && old(foreign) ==>
                r == Session(ManagedSession(id, None, false)) && lock == None && terminated == old(terminated)
      // Otherwise a child is spawned: counted from one when the wait succeeds, terminated when it does not.
      ensures !old(Probe()) ==> old(handles) == map[] && (r.Session? ==> spawned.Some?)
      ensures !old(Probe()) && spawned.Some? ==>
                exists n: nat | Decides(w, SPAWN_WAIT_TIMEOUT_MS, n) ::
                  && (r.Session? <==> w.probe(n))
                  && (r.Failed? ==> r.error == if Elapsed(w, n) < SPAWN_WAIT_TIMEOUT_MS then Exited else Timeout)
      ensures !old(Probe()) && r.Session? ==>
                && r == Session(ManagedSession(id, spawned, true))
                && lock == Some(InstanceLock(spawned.value, 1))
                && (if other then serving == None && foreign else serving == spawned && !foreign)
                && handles == map[id := spawned] && terminated == old(terminated)
      ensures r.Failed? ==>
                && !old(Probe()) && lock == None && handles == map[]
                && terminated == old(terminated) + (if spawned.Some? then [spawned.value] else [])
                && (r.error == Spawn <==> spawned == None)
      // Exactly when the service counted is not the one the lock names.
      ensures r.Session? && r.session.inLock && foreign <==>
                (old(lock).Some? && old(foreign)) || (!old(Probe()) && r.Session? && other)
    {
      if lock.Some? {
        var found := lock.value;
        if ReusableLock(found, Probe()) {
          lock := Some(found.(instances := SatInc(found.instances)));
          SizeOfOneMore(handles, id, None);
          handles := handles[id := None];
          return Session(ManagedSession(id, None, true));
        }
        lock := None;
      }
      if Probe() {
        return Session(ManagedSession(id, None, false));
      }
      if spawned == None {
        return Failed(Spawn);
      }
      var child := spawned.value;
      var wait, polls := WaitForService(w, SPAWN_WAIT_TIMEOUT_MS);
      if wait != Ready {
        var _ := Terminate(child, kill);
        return Failed(if wait == ChildExited then Exited else Timeout);
      }
      serving, foreign := if other then None else Some(child), other;
      lock := Some(InstanceLock(child, 1));
      handles := map[id := spawned];
      r := Session(ManagedSession(id, spawned, true));
    }

    /** Each session is released once. */
    method Release(session: ManagedSession, kill: Kill) returns (stopped: bool)
      requires Valid()
      requires
        if session.inLock then session.id in handles && handles[session.id] == session.child
        else session.child == None
      modifies this
      ensures Valid()
      ensures handles == if session.inLock then old(handles) - {session.id} else old(handles)
      // Nothing is ever terminated while another counted session is attached.
      ensures handles != map[] || !session.inLock ==>
                !stopped && terminated == old(terminated) && serving == old(serving) && foreign == old(foreign)
      ensures handles != map[] ==> lock == Some(InstanceLock(old(lock).value.dshPid, |handles|))
      // The last release asks the lock's process to stop; refused, it leaves a zero-count lock.
      ensures session.inLock && handles == map[] ==>
                && stopped == kill.stopped && terminated == old(terminated) + [old(lock).value.dshPid]
                && lock == (if stopped then None else Some(InstanceLock(old(lock).value.dshPid, 0)))
      // What answers afterwards: the process if it lives on, nobody's once the lock is gone.
      ensures session.inLock && handles == map[] ==>
                var lives := old(serving).Some? && !kill.dead;
                && serving == (if lives && !stopped then old(serving) else None)
                && foreign == (old(foreign) || (lives && stopped))
    {
      if !session.inLock {
        return false;
      }
      if lock == None {
        return false;
      }
      var found := lock.value;
      SizeOfOneLess(handles, session.id);
      handles := handles - {session.id};
      found := found.(instances := SatDec(found.instances));
      if found.instances != 0 {
        lock := Some(found);
        return false;
      }
      if session.child.Some? {
        stopped := Terminate(session.child.value, kill);
      } else {
        stopped := Terminate(found.dshPid, kill);
      }
      lock := if stopped then None else Some(found.(instances := 0));
      if stopped && serving.Some? {
        serving, foreign := None, true;
      }
    }
  }

  lemma SizeOfOneMore(m: map<nat, Option<nat>>, id: nat, child: Option<nat>)
    requires id !in m
    ensures |m[id := child]| == |m| + 1
  {
    assert m[id := child].Keys == m.Keys + {id};
    assert |m[id := child]| == |m[id := child].Keys| && |m| == |m.Keys|;
  }

  lemma SizeOfOneLess(m: map<nat, Option<nat>>, id: nat)
    requires id in m
    ensures |m - {id}| == |m| - 1
    ensures |m - {id}| == 0 <==> m - {id} == map[]
  {
    assert (m - {id}).Keys == m.Keys - {id};
    assert |m - {id}| == |(m - {id}).Keys| && |m| == |m.Keys|;
    assert |m - {id}| == 0 ==> (m - {id}).Keys == {};
  }

  /** A lock whose last client could not stop the service is joined again: the next client counts one, and its
      release asks the same process to stop, with whatever success. */
  method RejoinAfterFailedStop(launcher: LauncherCoordinator, id: nat, w: Awaited, kill: Kill) returns (stopped: bool)
    requires launcher.Valid() && launcher.lock.Some? && launcher.lock.value.instances == 0 && launcher.Probe()
    requires Sleeps(w)
    modifies launcher
    ensures launcher.Valid() && stopped == kill.stopped && launcher.handles == map[]
    ensures launcher.lock == if stopped then None else old(launcher.lock)
    ensures launcher.terminated == old(launcher.terminated) + [old(launcher.lock).value.dshPid]
  {
    assert id !in launcher.handles by {
      assert |launcher.handles| == |launcher.handles.Keys|;
    }
    var r := launcher.Acquire(id, None, w, false, kill);
    stopped := launcher.Release(r.session, kill);
  }

  /** A service stopped too late for its launcher leaves a zero-count lock and a free address; a foreign service
      that then answers is counted as managed, and its last client signals the process that is dead. */
  method ForeignServiceIsCounted(pid: nat, w: Awaited) returns (launcher: LauncherCoordinator, r: Acquired)
    requires pid != 0 && Sleeps(w) && w.probe(0)
    ensures fresh(launcher) && launcher.Valid() && launcher.foreign && launcher.serving == None
    ensures launcher.lock == Some(InstanceLock(pid, 1)) && r == Session(ManagedSession(2, None, true))
    ensures launcher.terminated == [pid]
  {
    launcher := new LauncherCoordinator(false);
    r := launcher.Acquire(1, Some(pid), w, false, Kill(true, true));
    var _ := launcher.Release(r.session, Kill(false, true));
    launcher.ForeignService(true);
    r := launcher.Acquire(2, None, w, false, Kill(true, true));
  }
}
