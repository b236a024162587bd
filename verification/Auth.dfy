/** Authentication flows: started by the user, carried by a helper process, and finished once the runtime has
    taken the committed credential in. */
module Auth {
  import opened Basics

  const REFRESH_TIMEOUT_MS: nat := 15_000
  const CATALOG_TIMEOUT_MS: nat := 15_000

  /** Flow "auth-n" is `n`. */
  type Flow = nat

  datatype Outcome = Succeeded | Cancelled | Failed | Unknown

  datatype Action =
    | Started(flow: Flow)
    | Finished(of: Flow, outcome: Outcome)
    | BusyStarted | BusyFinished
    | Shown(to: Flow)                    // a prompt, its withdrawal, or a notice
    | RefreshRuntime(pending: Flow)
    | Listed(query: Query, found: bool)  // the helper's providers, or an error in their place
    | Heartbeat | Ignore | Deadline | Fatal

  /** Which providers are asked for, and whether to log out of one. */
  datatype Query = Query(provider: Option<string>, logout: bool)

  /** The last query, the request now waiting for its providers, and until when. */
  datatype Catalog = Catalog(last: Option<Query>, waiting: Option<Request>, deadline: Option<nat>)

  /** Request "catalog-n" is `n`. */
  datatype Request = Request(id: nat, query: Query)

  const NO_CATALOG: Catalog := Catalog(None, None, None)

  datatype Context = Context(
    protocol: nat, packageRoot: string, agentDir: string, nodePath: string, cwd: string,
    sessionId: string, trusted: bool)

  datatype ConfigureError = UnsupportedProtocol | NotAbsolute | NoSdk | NotSpawned

  /** What the helper reports; a flow it names need not exist. */
  datatype HelperRecord =
    | ReadyWith(protocol: nat)
    | Interaction(flow: Flow)
    | Result(of: Flow, committed: bool, synchronized: bool, outcome: Outcome)
    | Listing(request: nat, query: Query)
    | Malformed

  datatype Pending = Pending(flow: Flow, outcome: Outcome, synchronized: bool)

  datatype Manager = Manager(
    context: Option<Context>, helper: bool, queued: seq<Action>, catalog: Catalog,
    active: Option<Flow>, pending: Option<Pending>, refreshDeadline: Option<nat>, nextId: nat)
  {
    /** The helper is gone, and with it whatever the active flow was doing. */
    function Abandoned(): Manager { this.(active := None, pending := None, refreshDeadline := None) }
  }

  const FRESH: Manager := Manager(None, false, [], NO_CATALOG, None, None, None, 1)

  function Next(id: nat): nat { if id < U64_MAX then id + 1 else id }

  function FinishOf(flow: Option<Flow>, outcome: Outcome): seq<Action> {
    if flow == None then [] else [Finished(flow.value, outcome)]
  }

  // ---- what each operation does: the new state, and the actions it returns ----

  function Invalid(c: Context, sdk: bool): Option<ConfigureError> {
    if c.protocol != 1 then Some(UnsupportedProtocol)
    else if !Absolute(c.packageRoot) || !Absolute(c.agentDir) || !Absolute(c.nodePath) || !Absolute(c.cwd) then
      Some(NotAbsolute)
    else if !sdk then Some(NoSdk)
    else None
  }

  /** A new request for providers; the one before it is no longer waited for. */
  function Asked(m: Manager, query: Query, now: nat): Manager {
    m.(nextId := Next(m.nextId),
       catalog := Catalog(Some(query), Some(Request(m.nextId, query)), Some(now + CATALOG_TIMEOUT_MS)))
  }

  /** The old flow is finished through the queue; a changed session empties the queue first and forgets the
      last query, which otherwise is asked again. */
  function Configured(m: Manager, c: Context, sdk: bool, spawned: bool, now: nat): (Manager, Option<ConfigureError>) {
    if Invalid(c, sdk).Some? then (m, Invalid(c, sdk))
    else if m.context == Some(c) && m.helper then (m, None)
    else
      var changed := m.context.Some? && m.context.value.sessionId != c.sessionId;
      var dropped := m.Abandoned().(queued := (if changed then [] else m.queued) + FinishOf(m.active, Unknown),
                                    catalog := if changed then NO_CATALOG else m.catalog);
      if !spawned then (dropped, Some(NotSpawned))
      else
        var started := dropped.(helper := true, context := Some(c));
        (if started.catalog.last.Some? then Asked(started, started.catalog.last.value, now) else started, None)
  }

  function Fetched(m: Manager, query: Query, sent: bool, now: nat): (Manager, seq<Action>) {
    var asked := Asked(m, query, now);
    if m.helper && sent then (asked, [])
    else (asked.(helper := false, catalog := Catalog(Some(query), None, None)), [Listed(query, false)])
  }

  function Begun(m: Manager, sent: bool): (Manager, seq<Action>) {
    if m.active.Some? then (m, [BusyStarted, BusyFinished])
    else if m.helper && sent then (m.(nextId := Next(m.nextId), active := Some(m.nextId)), [Started(m.nextId)])
    else (m.(nextId := Next(m.nextId), helper := false), [Started(m.nextId), Finished(m.nextId, Failed)])
  }

  /** A reply or a cancellation: when it cannot be sent the flow is finished, but a pending outcome and its
      deadline stay behind. */
  function Told(m: Manager, sent: bool): (Manager, seq<Action>) {
    if (m.helper && sent) || m.active == None then (m, [])
    else (m.(helper := false, active := None), FinishOf(m.active, Unknown))
  }

  function Replied(m: Manager, flow: Flow, sent: bool): (Manager, seq<Action>) {
    if m.active != Some(flow) then (m, []) else Told(m, sent)
  }

  function Recorded(m: Manager, r: HelperRecord, now: nat): (Manager, seq<Action>) {
    match r
    case ReadyWith(protocol) => (m, [if protocol == 1 then Heartbeat else Fatal])
    case Malformed => (m, [Fatal])
    case Interaction(flow) => (m, [if m.active == Some(flow) then Shown(flow) else Ignore])
    case Result(flow, committed, synchronized, outcome) =>
      if m.active != Some(flow) then (m, [Ignore])
      else if committed then
        (m.(pending := Some(Pending(flow, Succeeded, synchronized)), refreshDeadline := Some(now + REFRESH_TIMEOUT_MS)),
         [RefreshRuntime(flow)])
      else (m.(active := None), [Finished(flow, outcome)])
    case Listing(request, query) =>
      if m.catalog.waiting.Some? && m.catalog.waiting.value.id == request
      then (m.(catalog := m.catalog.(waiting := None, deadline := None)), [Listed(query, true)])
      else (m, [Ignore])
  }

  function Lost(m: Manager): (Manager, seq<Action>) {
    (m.Abandoned().(helper := false), if m.active.Some? then FinishOf(m.active, Unknown) else [Fatal])
  }

  function Refreshed(m: Manager, flow: Flow, success: bool): (Manager, seq<Action>) {
    if m.pending.Some? && m.pending.value.flow == flow then
      (m.Abandoned(), [Finished(flow, if success then m.pending.value.outcome else Failed)])
    else (m.(pending := None), [])
  }

  function CatalogExpired(m: Manager, now: nat): (Manager, seq<Action>) {
    if m.catalog.deadline == None || m.catalog.deadline.value > now then (m, [])
    else (m.(catalog := m.catalog.(waiting := None, deadline := None)),
          if m.catalog.waiting.Some? then [Listed(m.catalog.waiting.value.query, false)] else [])
  }

  function RefreshExpired(m: Manager, now: nat): (Manager, seq<Action>) {
    if m.refreshDeadline == None || m.refreshDeadline.value > now then (m, [])
    else if m.pending == None then (m.(refreshDeadline := None), [])
    else (m.Abandoned(), [Finished(m.pending.value.flow, Failed)])
  }

  function Expired(m: Manager, now: nat): (Manager, seq<Action>) {
    var (listed, acts) := CatalogExpired(m, now);
    (RefreshExpired(listed, now).0, acts + RefreshExpired(listed, now).1)
  }

  /** A deadline that has passed only wakes the worker, which then expires what is due. */
  predicate Due(m: Manager, now: nat) {
    || (m.catalog.deadline.Some? && m.catalog.deadline.value <= now)
    || (m.refreshDeadline.Some? && m.refreshDeadline.value <= now)
  }

  datatype Event =
    | Configure(context: Context, sdk: bool, spawned: bool, now: nat)
    | Get(query: Query, sent: bool, now: nat)
    | Start(sent: bool)
    | Reply(flow: Flow, sent: bool)
    | Cancel(sent: bool)
    | TakeQueued
    | HelperSays(record: HelperRecord, now: nat)
    | HelperLost
    | Wake(now: nat)
    | Control(of: Flow, success: bool)
    | Expire(now: nat)

  /** The helper is listened to only when nothing is queued. */
  function Step(m: Manager, e: Event): (Manager, seq<Action>) {
    match e
    case Configure(c, sdk, spawned, now) => (Configured(m, c, sdk, spawned, now).0, [])
    case Get(query, sent, now) => Fetched(m, query, sent, now)
    case Start(sent) => Begun(m, sent)
    case Reply(flow, sent) => Replied(m, flow, sent)
    case Cancel(sent) => Told(m, sent)
    case TakeQueued => if m.queued == [] then (m, []) else (m.(queued := m.queued[1..]), [m.queued[0]])
    case HelperSays(r, now) => if m.helper && m.queued == [] then Recorded(m, r, now) else (m, [])
    case HelperLost => if m.helper && m.queued == [] then Lost(m) else (m, [])
    case Wake(now) => (m, if m.queued == [] && Due(m, now) then [Deadline] else [])
    case Control(flow, success) => Refreshed(m, flow, success)
    case Expire(now) => Expired(m, now)
  }

  /** What ends a wait: a passed deadline, a record, or the end of the helper. */
  datatype Heard = Passed | Says(record: HelperRecord) | Ended

  function Received(queued: seq<Action>, heard: Heard, now: nat): Event {
    if queued != [] then TakeQueued
    else
      match heard
      case Passed => Wake(now)
      case Says(r) => HelperSays(r, now)
      case Ended => HelperLost
  }

  // ---- the same operations on the manager's own variables ----

  class AuthManager {
    var context: Option<Context>
    var helper: bool
    var queued: seq<Action>
    var catalog: Catalog
    var active: Option<Flow>
    var pending: Option<Pending>
    var refreshDeadline: Option<nat>
    var nextId: nat

    ghost function State(): Manager
      reads this
    {
      Manager(context, helper, queued, catalog, active, pending, refreshDeadline, nextId)
    }

    constructor ()
      ensures State() == FRESH
    {
      context, helper, queued, catalog := None, false, [], NO_CATALOG;
      active, pending, refreshDeadline, nextId := None, None, None, 1;
    }

    method Id() returns (id: nat)
      modifies `nextId
      ensures id == old(nextId) && nextId == Next(id)
    {
      id := nextId;
      if nextId < U64_MAX {
        nextId := nextId + 1;
      }
    }

    method Configure(c: Context, sdk: bool, spawned: bool, now: nat) returns (error: Option<ConfigureError>)
      modifies this
      ensures (State(), error) == Configured(old(State()), c, sdk, spawned, now)
    {
      error := Validate(c, sdk);
      if error.Some? || (context == Some(c) && helper) {
        return;
      }
      if context.Some? && context.value.sessionId != c.sessionId {
        queued, catalog := [], NO_CATALOG;
      }
      if active.Some? {
        queued := queued + [Finished(active.value, Unknown)];
      }
      active, pending, refreshDeadline := None, None, None;
      assert queued == Configured(old(State()), c, sdk, false, now).0.queued;
      if !spawned {
        return Some(NotSpawned);
      }
      helper, context := true, Some(c);
      if catalog.last.Some? {
        Ask(catalog.last.value, now);
      }
    }

    method Validate(c: Context, sdk: bool) returns (error: Option<ConfigureError>)
      ensures error == Invalid(c, sdk)
    {
      if c.protocol != 1 {
        return Some(UnsupportedProtocol);
      }
      var paths := [c.packageRoot, c.agentDir, c.nodePath, c.cwd];
      for k := 0 to |paths|
        invariant forall j | 0 <= j < k :: Absolute(paths[j])
      {
        if !Absolute(paths[k]) {
          assert exists j | 0 <= j < |paths| :: !Absolute(paths[j]);
          return Some(NotAbsolute);
        }
      }
      assert Absolute(paths[0]) && Absolute(paths[1]) && Absolute(paths[2]) && Absolute(paths[3]);
      error := if sdk then None else Some(NoSdk);
    }

    method Ask(query: Query, now: nat)
      modifies `nextId, `catalog
      ensures State() == Asked(old(State()), query, now)
    {
      var id := Id();
      catalog := Catalog(Some(query), Some(Request(id, query)), Some(now + CATALOG_TIMEOUT_MS));
    }

    method Get(query: Query, sent: bool, now: nat) returns (acts: seq<Action>)
      modifies this
      ensures (State(), acts) == Fetched(old(State()), query, sent, now)
    {
      Ask(query, now);
      if helper && sent {
        return [];
      }
      helper := false;
      catalog := catalog.(waiting := None, deadline := None);
      return [Listed(query, false)];
    }

    method Start(sent: bool) returns (acts: seq<Action>)
      modifies this
      ensures (State(), acts) == Begun(old(State()), sent)
    {
      if active.Some? {
        return [BusyStarted, BusyFinished];
      }
      var flow := Id();
      if !(helper && sent) {
        helper := false;
        return [Started(flow), Finished(flow, Failed)];
      }
      active := Some(flow);
      return [Started(flow)];
    }

    method Reply(flow: Flow, sent: bool) returns (acts: seq<Action>)
      modifies this
      ensures (State(), acts) == Replied(old(State()), flow, sent)
    {
      if active != Some(flow) || (helper && sent) {
        return [];
      }
      helper, active := false, None;
      return [Finished(flow, Unknown)];
    }

    method Cancel(sent: bool) returns (acts: seq<Action>)
      modifies this
      ensures (State(), acts) == Told(old(State()), sent)
    {
      var flow := active;
      if (helper && sent) || flow == None {
        return [];
      }
      helper, active := false, None;
      return [Finished(flow.value, Unknown)];
    }

    method Record(r: HelperRecord, now: nat) returns (act: Action)
      modifies this
      ensures (State(), [act]) == Recorded(old(State()), r, now)
    {
      match r
      case ReadyWith(protocol) => act := if protocol == 1 then Heartbeat else Fatal;
      case Malformed => act := Fatal;
      case Interaction(flow) => act := if active == Some(flow) then Shown(flow) else Ignore;
      case Result(flow, committed, synchronized, outcome) =>
        if active != Some(flow) {
          return Ignore;
        }
        if committed {
          pending := Some(Pending(flow, Succeeded, synchronized));
          refreshDeadline := Some(now + REFRESH_TIMEOUT_MS);
          return RefreshRuntime(flow);
        }
        active := None;
        return Finished(flow, outcome);
      case Listing(request, query) =>
        if catalog.waiting == None || catalog.waiting.value.id != request {
          return Ignore;
        }
        catalog := catalog.(waiting := None, deadline := None);
        return Listed(query, true);
    }

    /** What is queued goes first; then, when there is a helper, what comes from it, or a passed
        deadline. Nothing else ends the wait. */
    method Recv(heard: Heard, now: nat) returns (act: Option<Action>)
      modifies this
      ensures var (t, acts) := Step(old(State()), Received(old(queued), heard, now));
              State() == t && acts == (if act == None then [] else [act.value])
    {
      if queued != [] {
        act, queued := Some(queued[0]), queued[1..];
        return;
      }
      match heard
      case Passed =>
        if (catalog.deadline.Some? && catalog.deadline.value <= now)
          || (refreshDeadline.Some? && refreshDeadline.value <= now) {
          return Some(Deadline);
        }
        return None;
      case Says(r) =>
        if !helper {
          return None;
        }
        var one := Record(r, now);
        return Some(one);
      case Ended =>
        if !helper {
          return None;
        }
        var uncertain := active;
        active, pending, refreshDeadline, helper := None, None, None, false;
        return Some(if uncertain.Some? then Finished(uncertain.value, Unknown) else Fatal);
    }

    method Control(flow: Flow, success: bool) returns (acts: seq<Action>)
      modifies this
      ensures (State(), acts) == Refreshed(old(State()), flow, success)
    {
      var taken := pending;
      pending := None;
      if taken == None || taken.value.flow != flow {
        return [];
      }
      active, refreshDeadline := None, None;
      return [Finished(flow, if success then taken.value.outcome else Failed)];
    }

    method ExpireDeadlines(now: nat) returns (acts: seq<Action>)
      modifies this
      ensures (State(), acts) == Expired(old(State()), now)
    {
      acts := [];
      if catalog.deadline.Some? && catalog.deadline.value <= now {
        if catalog.waiting.Some? {
          acts := [Listed(catalog.waiting.value.query, false)];
        }
        catalog := catalog.(waiting := None, deadline := None);
      }
      if refreshDeadline.Some? && refreshDeadline.value <= now {
        refreshDeadline := None;
        if pending.Some? {
          acts := acts + [Finished(pending.value.flow, Failed)];
          pending, active := None, None;
        }
      }
      ghost var listed := CatalogExpired(old(State()), now);
      assert acts == listed.1 + RefreshExpired(listed.0, now).1;
    }
  }
}
