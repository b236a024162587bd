/** Preparing a side session: the correlated control records of the runtime, and the arms of the worker's
    loop that accept a creation, wait for it, copy its artifact and publish one result. */
module SideSession {
  import opened Basics

  const MAX_CONTROL_BYTES: nat := 512 * 1024
  const PREPARATION_TIMEOUT_MS: nat := 20_000

  // ---- side.rs ----

  /** "pie-side-n"; another id with that prefix; any other id, or none. */
  datatype Id = Numbered(n: nat) | Prefixed | Foreign

  datatype Outcome = Selecting | Preparing | Dismissed | Broken | Available | Unknown

  datatype Control = Control(
    protocol: nat, outcome: Outcome, session: Option<string>, directory: Option<string>,
    persisted: Option<bool>, cwd: Option<string>)

  /** The text of a status: not JSON, or a value with an id that may or may not be a control. */
  datatype Body = Unparsable | Parsed(id: Id, control: Option<Control>)

  /** `Status`: a status under the side key, with the length of its text. */
  datatype Record = Response(to: Id, success: bool) | Status(bytes: nat, body: Body) | Other

  predicate IsControlRecord(r: Record) {
    match r
    case Response(to, _) => !to.Foreign?
    case Status(_, _) => true
    case Other => false
  }

  datatype Reason =
    | SourceChanged | Rejected | TooLarge | InvalidControl | WrongProtocol | Reported | UnknownOutcome
    | BadSeed | TimedOut | AlreadyPreparing | NotAttached | Exhausted | Unsupported | NotCopied | CopyStopped

  datatype Seed = Seed(session: Option<string>, workspace: string)

  datatype SideResult = Ready(seed: Seed) | Cancelled | Failed(reason: Reason)

  function SeedOf(c: Control): Option<Seed> {
    if c.cwd == None || !Absolute(c.cwd.value) || c.persisted == None then None
    else if !c.persisted.value then Some(Seed(None, c.cwd.value))
    else if c.session == None || !Absolute(c.session.value) then None
    else Some(Seed(c.session, c.cwd.value))
  }

  datatype Pending = Pending(id: nat, source: string, deadline: Option<nat>)

  datatype Side = Side(pending: Option<Pending>, nextId: nat, destination: Option<string>) {
    function Settled(): Side { this.(pending := None) }

    predicate Due(now: nat) {
      pending.Some? && pending.value.deadline.Some? && pending.value.deadline.value <= now
    }
  }

  /** A new operation, or why there is none. */
  function Begun(s: Side, source: string, now: nat): (Side, Option<Reason>) {
    if s.pending.Some? then (s, Some(AlreadyPreparing))
    else if source == "" then (s, Some(NotAttached))
    else if s.nextId >= U64_MAX then (s, Some(Exhausted))
    else
      var pending := Pending(s.nextId + 1, source, Some(now + PREPARATION_TIMEOUT_MS));
      (s.(nextId := s.nextId + 1, pending := Some(pending)), None)
  }

  function Controlled(s: Side, c: Control, now: nat): (Side, Option<SideResult>)
    requires s.pending.Some?
  {
    if c.protocol != 1 then (s.Settled(), Some(Failed(WrongProtocol)))
    else if c.outcome.Selecting? then (s.(pending := Some(s.pending.value.(deadline := None))), None)
    else if c.outcome.Preparing? then
      (s.(pending := Some(s.pending.value.(deadline := Some(now + PREPARATION_TIMEOUT_MS)))), None)
    else (s.Settled().(destination := c.directory), Some(
      match c.outcome
      case Dismissed => Cancelled
      case Broken => Failed(Reported)
      case Available => (if SeedOf(c) == None then Failed(BadSeed) else Ready(SeedOf(c).value))
      case _ => Failed(UnknownOutcome)))
  }

  function Recorded(s: Side, r: Record, source: string, now: nat): (Side, Option<SideResult>) {
    if s.pending == None then (s, None)
    else if s.pending.value.source != source then (s.Settled(), Some(Failed(SourceChanged)))
    else
      match r
      case Other => (s, None)
      case Response(to, success) =>
        if to == Numbered(s.pending.value.id) && !success then (s.Settled(), Some(Failed(Rejected))) else (s, None)
      case Status(bytes, body) =>
        if bytes > MAX_CONTROL_BYTES then (s.Settled(), Some(Failed(TooLarge)))
        else if body.Unparsable? || body.id != Numbered(s.pending.value.id) then (s, None)
        else if body.control == None then (s.Settled(), Some(Failed(InvalidControl)))
        else Controlled(s, body.control.value, now)
  }

  class SideSessionControl {
    var pending: Option<Pending>
    var nextId: nat
    var destination: Option<string>

    ghost function State(): Side
      reads this
    {
      Side(pending, nextId, destination)
    }

    constructor ()
      ensures State() == Side(None, 0, None)
    {
      pending, nextId, destination := None, 0, None;
    }

    method Begin(source: string, now: nat) returns (refused: Option<Reason>)
      modifies this
      ensures (State(), refused) == Begun(old(State()), source, now)
    {
      if pending.Some? {
        return Some(AlreadyPreparing);
      }
      if source == "" {
        return Some(NotAttached);
      }
      if nextId >= U64_MAX {
        return Some(Exhausted);
      }
      nextId := nextId + 1;
      pending := Some(Pending(nextId, source, Some(now + PREPARATION_TIMEOUT_MS)));
      return None;
    }

    method CancelCommand() returns (target: Option<nat>)
      modifies this
      ensures State() == old(State()).Settled()
      ensures target == if old(pending).None? then None else Some(old(pending).value.id)
    {
      target := if pending.None? then None else Some(pending.value.id);
      pending := None;
    }

    method TakeDestination() returns (directory: Option<string>)
      modifies this
      ensures State() == old(State()).(destination := None) && directory == old(destination)
    {
      directory := destination;
      destination := None;
    }

    method Fail(reason: Reason) returns (result: Option<SideResult>)
      modifies this
      ensures State() == old(State()).Settled() && result == Some(Failed(reason))
    {
      pending := None;
      return Some(Failed(reason));
    }

    method Record(r: Record, source: string, now: nat) returns (result: Option<SideResult>)
      modifies this
      ensures (State(), result) == Recorded(old(State()), r, source, now)
    {
      if pending.None? {
        return None;
      }
      if pending.value.source != source {
        result := Fail(SourceChanged);
        return;
      }
      if r.Response? && r.to == Numbered(pending.value.id) && !r.success {
        result := Fail(Rejected);
        return;
      }
      if !r.Status? {
        return None;
      }
      if r.bytes > MAX_CONTROL_BYTES {
        result := Fail(TooLarge);
        return;
      }
      if r.body.Unparsable? || r.body.id != Numbered(pending.value.id) {
        return None;
      }
      if r.body.control == None {
        result := Fail(InvalidControl);
        return;
      }
      result := Accept(r.body.control.value, now);
    }

    method Accept(c: Control, now: nat) returns (result: Option<SideResult>)
      requires pending.Some?
      modifies this
      ensures (State(), result) == Controlled(old(State()), c, now)
    {
      if c.protocol != 1 {
        result := Fail(WrongProtocol);
        return;
      }
      match c.outcome
      case Selecting =>
        pending := Some(pending.value.(deadline := None));
        return None;
      case Preparing =>
        pending := Some(pending.value.(deadline := Some(now + PREPARATION_TIMEOUT_MS)));
        return None;
      case Dismissed => result := Conclude(c.directory, Cancelled);
      case Broken => result := Conclude(c.directory, Failed(Reported));
      case Available =>
        var seed := SeedOf(c);
        result := Conclude(c.directory, if seed == None then Failed(BadSeed) else Ready(seed.value));
      case Unknown => result := Conclude(c.directory, Failed(UnknownOutcome));
    }

    method Conclude(directory: Option<string>, with: SideResult) returns (result: Option<SideResult>)
      modifies this
      ensures State() == old(State()).Settled().(destination := directory) && result == Some(with)
    {
      pending, destination := None, directory;
      return Some(with);
    }
  }

  // ---- the worker's loop ----

  type Creation = nat

  datatype Materializing = Materializing(creation: Creation, seed: Seed, directory: Option<string>)

  /** An operation id and the creation it was begun for. */
  datatype Issue = Issue(id: nat, creation: Creation)

  datatype Prepared = Prepared(creation: Creation, result: SideResult)

  /** `wanted` and `changed` are the watch the host requests cancellation through; `accepted` are the
      creations taken from the queue and not withdrawn before that, `issued` the ids of their operations. */
  datatype Worker = Worker(
    side: Side, source: string, initialized: bool, stopped: bool,
    creation: Option<Creation>, materializing: Option<Materializing>,
    wanted: Option<Creation>, changed: bool,
    accepted: seq<Creation>, issued: seq<Issue>, published: seq<Prepared>)

  function Fresh(source: string): Worker {
    Worker(Side(None, 0, None), source, false, false, None, None, None, false, [], [], [])
  }

  /** `SourceMoves`: the native session changes in some other arm; `next`: what it is after the record. */
  datatype Event =
    | Initialize
    | Stop
    | Receive(record: Record, next: string, now: nat)
    | SourceMoves(next: string)
    | Prepare(requested: Creation, supported: bool, now: nat)
    | CancelSide(requested: Creation)
    | CancellationChanged
    | Completed(copied: Option<SideResult>)
    | Deadline(now: nat)

  /** Takes the waiting creation, if there is one, and publishes its result. */
  function Settle(w: Worker, result: SideResult): Worker {
    if w.creation == None then w
    else w.(creation := None, published := w.published + [Prepared(w.creation.value, result)])
  }

  function Withdraw(w: Worker, result: SideResult): Worker {
    Settle(w.(side := w.side.Settled()), result)
  }

  function Received(w: Worker, r: Record, now: nat): Worker {
    var (side, result) := Recorded(w.side, r, w.source, now);
    var heard := w.(side := side);
    if result == None || w.creation == None then heard
    else if result.value.Ready? then
      heard.(creation := None, side := side.(destination := None),
             materializing := Some(Materializing(w.creation.value, result.value.seed, side.destination)))
    else Settle(heard, result.value)
  }

  function Moved(w: Worker, r: Record, next: string): Worker {
    if IsControlRecord(r) || next == w.source then w else Withdraw(w, Cancelled).(source := next)
  }

  function PrepareStep(w: Worker, requested: Creation, supported: bool, now: nat): Worker {
    if !w.initialized || w.materializing.Some? || w.wanted == Some(requested) then w
    else
      var taken := w.(accepted := w.accepted + [requested]);
      var (side, refused) := if supported then Begun(w.side, w.source, now) else (w.side, Some(Unsupported));
      if refused.Some? then taken.(published := w.published + [Prepared(requested, Failed(refused.value))])
      else taken.(side := side, creation := Some(requested), issued := w.issued + [Issue(side.nextId, requested)])
  }

  function Copied(w: Worker, copied: Option<SideResult>): Worker {
    if w.materializing == None then w
    else
      var result := if copied == None then Failed(CopyStopped) else copied.value;
      w.(materializing := None, published := w.published + [Prepared(w.materializing.value.creation, result)])
  }

  function Step(w: Worker, e: Event): Worker {
    if w.stopped then w else
    match e
    case Initialize => w.(initialized := true)
    case Stop => w.(stopped := true)
    case Receive(r, next, now) => Moved(Received(w, r, now), r, next)
    case SourceMoves(next) => w.(source := next)
    case Prepare(requested, supported, now) => PrepareStep(w, requested, supported, now)
    case CancelSide(requested) => w.(wanted := Some(requested), changed := true)
    case CancellationChanged =>
      if !w.changed then w
      else if w.creation.Some? && w.wanted == w.creation then Withdraw(w.(changed := false), Cancelled)
      else w.(changed := false)
    case Completed(copied) => Copied(w, copied)
    case Deadline(now) => if w.side.Due(now) then Withdraw(w, Failed(TimedOut)) else w
  }

  function Run(source: string, events: seq<Event>): Worker {
    if events == [] then Fresh(source) else Step(Run(source, events[..|events| - 1]), events[|events| - 1])
  }

  // ---- the invariant ----

  function Creations(published: seq<Prepared>): seq<Creation> {
    seq(|published|, k requires 0 <= k < |published| => published[k].creation)
  }

  lemma CreationsSnoc(published: seq<Prepared>, p: Prepared)
    ensures Creations(published + [p]) == Creations(published) + [p.creation]
  {
  }

  function Held(w: Worker): multiset<Creation> {
    (if w.creation.Some? then multiset{w.creation.value} else multiset{})
    + (if w.materializing.Some? then multiset{w.materializing.value.creation} else multiset{})
  }

  ghost predicate OneState(w: Worker) {
    && (w.creation.Some? <==> w.side.pending.Some?)
    && !(w.creation.Some? && w.materializing.Some?)
  }

  ghost predicate Conserved(w: Worker) {
    multiset(w.accepted) == multiset(Creations(w.published)) + Held(w)
  }

  ghost predicate IdsGrow(w: Worker) {
    && (forall i, j | 0 <= i < j < |w.issued| :: w.issued[i].id < w.issued[j].id)
    && (forall i | 0 <= i < |w.issued| :: w.issued[i].id <= w.side.nextId)
    && (w.side.pending.Some? ==>
          w.issued != [] && w.issued[|w.issued| - 1].id == w.side.pending.value.id == w.side.nextId)
    && (w.creation.Some? ==> w.issued != [] && w.issued[|w.issued| - 1].creation == w.creation.value)
  }

  ghost predicate Inv(w: Worker) { OneState(w) && Conserved(w) && IdsGrow(w) }

  lemma RecordedFrame(s: Side, r: Record, source: string, now: nat)
    ensures var (t, result) := Recorded(s, r, source, now);
            && t.nextId == s.nextId
            && (result.Some? ==> s.pending.Some? && t.pending == None)
            && (result.None? ==> t.pending.Some? == s.pending.Some?)
            && (result.None? && s.pending.Some? ==> t.pending.value.id == s.pending.value.id)
  {
  }

  lemma SettleKeeps(w: Worker, result: SideResult)
    requires Conserved(w) && IdsGrow(w) && !(w.creation.Some? && w.materializing.Some?) && w.side.pending == None
    ensures Inv(Settle(w, result)) && Settle(w, result).creation == None
  {
    if w.creation.Some? {
      CreationsSnoc(w.published, Prepared(w.creation.value, result));
    }
  }

  lemma WithdrawKeeps(w: Worker, result: SideResult)
    requires Inv(w)
    ensures Inv(Withdraw(w, result)) && Withdraw(w, result).creation == None
  {
    SettleKeeps(w.(side := w.side.Settled()), result);
  }

  lemma ReceivedKeeps(w: Worker, r: Record, now: nat)
    requires Inv(w)
    ensures Inv(Received(w, r, now))
  {
    var (side, result) := Recorded(w.side, r, w.source, now);
    RecordedFrame(w.side, r, w.source, now);
    if result.Some? && !result.value.Ready? {
      SettleKeeps(w.(side := side), result.value);
    }
  }

  lemma PrepareKeeps(w: Worker, requested: Creation, supported: bool, now: nat)
    requires Inv(w)
    ensures Inv(PrepareStep(w, requested, supported, now))
  {
    var t := PrepareStep(w, requested, supported, now);
    if t != w {
      assert t.accepted == w.accepted + [requested];
      if t.published != w.published {
        CreationsSnoc(w.published, t.published[|w.published|]);
      } else {
        IssueKeeps(w, requested, t.side, t.issued);
      }
    }
  }

  lemma IssueKeeps(w: Worker, requested: Creation, side: Side, issued: seq<Issue>)
    requires Inv(w) && w.creation == None && w.materializing == None
    requires side.pending.Some? && side.pending.value.id == side.nextId == w.side.nextId + 1
    requires issued == w.issued + [Issue(side.nextId, requested)]
    ensures Inv(w.(accepted := w.accepted + [requested], creation := Some(requested), side := side, issued := issued))
  {
  }

  lemma CopiedKeeps(w: Worker, copied: Option<SideResult>)
    requires Inv(w)
    ensures Inv(Copied(w, copied))
  {
    var t := Copied(w, copied);
    if t != w {
      CreationsSnoc(w.published, t.published[|w.published|]);
    }
  }

  lemma MovedKeeps(w: Worker, r: Record, next: string)
    requires Inv(w)
    ensures Inv(Moved(w, r, next))
  {
    WithdrawKeeps(w, Cancelled);
  }

  /** Variables the invariant does not mention. */
  lemma ElsewhereKeeps(
      w: Worker, source: string, initialized: bool, stopped: bool, wanted: Option<Creation>, changed: bool)
    requires Inv(w)
    ensures Inv(w.(source := source, initialized := initialized, stopped := stopped,
                   wanted := wanted, changed := changed))
  {
  }

  lemma ReceiveKeeps(w: Worker, r: Record, next: string, now: nat, t: Worker)
    requires Inv(w) && t == Moved(Received(w, r, now), r, next)
    ensures Inv(t)
  {
    var heard := Received(w, r, now);
    ReceivedKeeps(w, r, now);
    MovedKeeps(heard, r, next);
  }

  lemma StepKeeps(w: Worker, e: Event)
    requires Inv(w)
    ensures Inv(Step(w, e))
  {
    var t := Step(w, e);
    if w.stopped {
    } else if e.Receive? {
      ReceiveKeeps(w, e.record, e.next, e.now, t);
    } else if e.Prepare? {
      PrepareKeeps(w, e.requested, e.supported, e.now);
    } else if e.Completed? {
      CopiedKeeps(w, e.copied);
    } else {
      OtherStepKeeps(w, e);
    }
  }

  lemma CancellationKeeps(w: Worker)
    requires Inv(w) && !w.stopped
    ensures Inv(Step(w, CancellationChanged))
  {
    var seen := w.(changed := false);
    ElsewhereKeeps(w, w.source, w.initialized, w.stopped, w.wanted, false);
    WithdrawKeeps(seen, Cancelled);
  }

  lemma OtherStepKeeps(w: Worker, e: Event)
    requires Inv(w) && !w.stopped && !e.Receive? && !e.Prepare? && !e.Completed?
    ensures Inv(Step(w, e))
  {
    if e.CancellationChanged? {
      CancellationKeeps(w);
    } else if e.Deadline? {
      WithdrawKeeps(w, Failed(TimedOut));
    } else {
      var t := Step(w, e);
      ElsewhereKeeps(w, t.source, t.initialized, t.stopped, t.wanted, t.changed);
    }
  }

  lemma {:induction false} RunKeeps(source: string, events: seq<Event>)
    ensures Inv(Run(source, events))
  {
    if events != [] {
      RunKeeps(source, events[..|events| - 1]);
      StepKeeps(Run(source, events[..|events| - 1]), events[|events| - 1]);
    }
  }

  // ---- what every run keeps ----

  /** The worker is idle, or waits for one creation, or copies for one; and every accepted creation has
      been answered exactly once, except the one it still waits or copies for. */
  lemma EachAcceptedIsAnsweredOnce(source: string, events: seq<Event>)
    ensures var w := Run(source, events);
            && (w.creation.Some? <==> w.side.pending.Some?)
            && (w.creation == None || w.materializing == None)
            && multiset(w.accepted) == multiset(Creations(w.published)) + Held(w)
            && |w.accepted| == |w.published| + (if w.creation.Some? || w.materializing.Some? then 1 else 0)
  {
    RunKeeps(source, events);
    var w := Run(source, events);
    assert |multiset(w.accepted)| == |multiset(Creations(w.published))| + |Held(w)|;
  }

  /** Ids are never reissued, so the operation that is pending has an id of its own. */
  lemma IdsAreNeverReissued(source: string, events: seq<Event>)
    ensures var w := Run(source, events);
            && (forall i, j | 0 <= i < j < |w.issued| :: w.issued[i].id < w.issued[j].id)
            && (w.side.pending.Some? ==>
                  w.issued != [] && w.side.pending.value.id == w.issued[|w.issued| - 1].id
                  && forall i | 0 <= i < |w.issued| - 1 :: w.issued[i].id != w.side.pending.value.id)
  {
    RunKeeps(source, events);
  }

  /** The operation a record belongs to, when it says so. */
  function About(r: Record): Id {
    match r
    case Response(to, _) => to
    case Status(_, body) => if body.Parsed? then body.id else Foreign
    case Other => Foreign
  }

  /** A record of an earlier operation leaves the pending one as it is, exactly when the source is still
      the same and the record is not an oversized control; otherwise it fails the pending operation. */
  lemma RecordsOfOthersSettleNothing(s: Side, r: Record, source: string, now: nat)
    requires s.pending.Some? && About(r) != Numbered(s.pending.value.id)
    ensures var (t, result) := Recorded(s, r, source, now);
            if s.pending.value.source == source && !Oversized(r)
            then t == s && result == None
            else t.pending == None && result.Some? && result.value.Failed?
  {
  }

  predicate Oversized(r: Record) { r.Status? && r.bytes > MAX_CONTROL_BYTES }

  /** The session the pending operation was begun in is no longer current, before the record or with it. */
  predicate SourceMoved(w: Worker, r: Record, next: string) {
    (w.side.pending.Some? && w.side.pending.value.source != w.source) || (!IsControlRecord(r) && next != w.source)
  }

  /** In every run a record that takes the waiting creation - to its result or to the copy - bears the id issued
      for that very creation, unless it is an oversized control or the source session changed. */
  lemma RecordsSettleTheirOwn(source: string, events: seq<Event>, r: Record, next: string, now: nat)
    requires Run(source, events).creation.Some?
    requires Run(source, events + [Receive(r, next, now)]).creation == None
    ensures var w := Run(source, events);
            || (w.issued != [] && w.issued[|w.issued| - 1].creation == w.creation.value
                && About(r) == Numbered(w.issued[|w.issued| - 1].id))
            || Oversized(r)
            || SourceMoved(w, r, next)
  {
    hide Step, Inv, About, SourceMoved;
    assert (events + [Receive(r, next, now)])[..|events|] == events;
    RunKeeps(source, events);
    ItSettlesItsOwn(Run(source, events), r, next, now);
  }

  lemma ItSettlesItsOwn(w: Worker, r: Record, next: string, now: nat)
    requires Inv(w) && w.creation.Some? && Step(w, Receive(r, next, now)).creation == None
    ensures || (w.issued != [] && w.issued[|w.issued| - 1].creation == w.creation.value
                && About(r) == Numbered(w.issued[|w.issued| - 1].id))
            || Oversized(r)
            || SourceMoved(w, r, next)
  {
    hide Conserved, About, Recorded;
    if About(r) != Numbered(w.side.pending.value.id) {
      RecordsOfOthersSettleNothing(w.side, r, w.source, now);
    }
  }

  /** While an operation stays pending its deadline moves only with its own controls: none while the user
      selects, and a whole timeout from the moment of each sign of progress. */
  lemma OnlyItsOwnControlsMoveTheDeadline(s: Side, r: Record, source: string, now: nat)
    requires s.pending.Some?
    ensures var t := Recorded(s, r, source, now).0;
            t.pending.Some? && t != s ==>
              && r.Status? && r.body.Parsed? && r.body.id == Numbered(s.pending.value.id) && r.body.control.Some?
              && t == s.(pending := Some(s.pending.value.(deadline := t.pending.value.deadline)))
              && (r.body.control.value.outcome == Selecting ==> t.pending.value.deadline == None)
              && (r.body.control.value.outcome != Selecting ==>
                    && r.body.control.value.outcome == Preparing
                    && t.pending.value.deadline == Some(now + PREPARATION_TIMEOUT_MS))
  {
  }

  /** An oversized control of an earlier operation fails the pending one, */
  lemma OversizedControlFailsAnother(w: Worker, k: nat, now: nat)
    requires Inv(w) && !w.stopped && w.creation.Some? && k < |w.issued| - 1 && w.side.pending.value.source == w.source
    ensures var big := Status(MAX_CONTROL_BYTES + 1, Parsed(Numbered(w.issued[k].id), None));
            w.issued[k].id != w.side.pending.value.id
            && Step(w, Receive(big, w.source, now)).published ==
               w.published + [Prepared(w.creation.value, Failed(TooLarge))]
  {
    var big := Status(MAX_CONTROL_BYTES + 1, Parsed(Numbered(w.issued[k].id), None));
    assert Recorded(w.side, big, w.source, now).1 == Some(Failed(TooLarge));
    assert Step(w, Receive(big, w.source, now)) == Received(w, big, now);
  }

  /** as it does in this run, where the first preparation had timed out. */
  lemma ARunWithAnEarlierOperation(cwd: string)
    requires cwd != ""
    ensures var w := Run(cwd, [Initialize, Prepare(7, true, 0), Deadline(20_000), Prepare(8, true, 20_000)]);
            && !w.stopped && w.creation == Some(8) && |w.issued| == 2
            && w.side.pending.Some? && w.side.pending.value.source == w.source
  {
    var es := [Initialize, Prepare(7, true, 0), Deadline(20_000), Prepare(8, true, 20_000)];
    var a := Fresh(cwd).(initialized := true);
    var b := a.(side := Side(Some(Pending(1, cwd, Some(20_000))), 1, None), creation := Some(7),
                accepted := [7], issued := [Issue(1, 7)]);
    var c := b.(side := Side(None, 1, None), creation := None, published := [Prepared(7, Failed(TimedOut))]);
    assert es[..3][..2] == es[..2] && es[..2][..1] == es[..1] && es[..1][..0] == [];
    assert Run(cwd, es[..1]) == a;
    assert Step(a, es[1]) == b && Run(cwd, es[..2]) == b;
    assert Step(b, es[2]) == c && Run(cwd, es[..3]) == c;
    assert Run(cwd, es) == Step(c, es[3]);
  }

  /** Copying begins only on a ready control of the pending operation, with the seed and the directory that
      very control names: a directory left by an earlier operation is never used. */
  lemma CopiesWhatItsOwnControlNames(w: Worker, e: Event)
    requires Inv(w) && w.materializing == None && Step(w, e).materializing.Some?
    ensures e.Receive? && e.record.Status? && e.record.bytes <= MAX_CONTROL_BYTES && e.record.body.Parsed?
    ensures w.side.pending.Some? && e.record.body.id == Numbered(w.side.pending.value.id)
    ensures w.side.pending.value.source == w.source
    ensures e.record.body.control.Some? && w.creation.Some?
    ensures var c := e.record.body.control.value;
            && c.protocol == 1 && c.outcome == Available && SeedOf(c).Some?
            && Step(w, e).materializing == Some(Materializing(w.creation.value, SeedOf(c).value, c.directory))
            && Step(w, e).side.destination == None && Step(w, e).published == w.published
  {
  }

  /** Nothing is ever stuck. A waiting creation can always be cancelled, even while the user selects and
      there is no deadline; */
  lemma CancellingAnswers(w: Worker)
    requires Inv(w) && !w.stopped && w.creation.Some?
    ensures var t := Step(Step(w, CancelSide(w.creation.value)), CancellationChanged);
            t.creation == None && t.materializing == None && t.side.pending == None
            && t.published == w.published + [Prepared(w.creation.value, Cancelled)]
  {
  }

  /** when it is due the deadline answers it; and the end of the copy answers what is being copied. */
  lemma TimeAndCopyAnswer(w: Worker, now: nat, copied: Option<SideResult>)
    requires Inv(w) && !w.stopped
    ensures w.side.Due(now) ==>
              var t := Step(w, Deadline(now));
              w.creation.Some? && t.creation == None && t.side.pending == None
              && t.published == w.published + [Prepared(w.creation.value, Failed(TimedOut))]
    ensures w.materializing.Some? ==>
              var t := Step(w, Completed(copied));
              var result := if copied == None then Failed(CopyStopped) else copied.value;
              t.creation == None && t.materializing == None
              && t.published == w.published + [Prepared(w.materializing.value.creation, result)]
  {
  }

  // ---- what each event answers, in every run ----

  lemma RunOneMore(source: string, events: seq<Event>, e: Event)
    ensures Run(source, events + [e]) == Step(Run(source, events), e)
  {
    assert (events + [e])[..|events|] == events;
  }

  /** The waiting creation gets its result and nothing is held any more; */
  predicate Answered(w: Worker, t: Worker, result: SideResult) {
    && w.creation.Some? && t.creation == None && t.materializing == None && t.side.pending == None
    && t.accepted == w.accepted && t.issued == w.issued
    && t.published == w.published + [Prepared(w.creation.value, result)]
  }

  /** What the host has asked for is as it was. */
  predicate SameAround(w: Worker, t: Worker) {
    t.initialized == w.initialized && t.stopped == w.stopped && t.wanted == w.wanted && t.changed == w.changed
  }

  /** or it goes on waiting. */
  predicate StillWaits(w: Worker, t: Worker) {
    && t.creation == w.creation && t.materializing == w.materializing && t.published == w.published
    && t.side.pending.Some? == w.side.pending.Some?
  }

  /** A waiting creation whose session is still current. */
  predicate Waits(w: Worker) {
    !w.stopped && w.creation.Some? && w.side.pending.Some? && w.side.pending.value.source == w.source
  }

  /** The session to continue in, as the control tells: a new one, or the one persisted at that path. */
  predicate Names(c: Control, seed: Seed) {
    && c.cwd == Some(seed.workspace) && Absolute(seed.workspace)
    && if seed.session == None then c.persisted == Some(false)
       else c.persisted == Some(true) && c.session == seed.session && Absolute(seed.session.value)
  }

  /** What a control of the pending operation itself leads to, by its outcome. */
  lemma OwnControlAnswers(source: string, events: seq<Event>, bytes: nat, c: Control, next: string, now: nat)
    requires var w := Run(source, events); Waits(w) && bytes <= MAX_CONTROL_BYTES
    ensures var w := Run(source, events);
            var r := Status(bytes, Parsed(Numbered(w.side.pending.value.id), Some(c)));
            var t := Run(source, events + [Receive(r, next, now)]);
            SameAround(w, t) &&
            if c.protocol != 1 then Answered(w, t, Failed(WrongProtocol))
            else
              && (c.outcome in {Selecting, Preparing} ==> StillWaits(w, t))
              && (c.outcome == Dismissed ==> Answered(w, t, Cancelled))
              && (c.outcome == Broken ==> Answered(w, t, Failed(Reported)))
              && (c.outcome == Unknown ==> Answered(w, t, Failed(UnknownOutcome)))
              && (c.outcome == Available ==>
                    && (forall seed :: Names(c, seed) ==>
                          && t.materializing == Some(Materializing(w.creation.value, seed, c.directory))
                          && t.creation == None && t.side.pending == None && t.published == w.published)
                    && ((forall seed :: !Names(c, seed)) ==> Answered(w, t, Failed(BadSeed))))
  {
    var w := Run(source, events);
    var r := Status(bytes, Parsed(Numbered(w.side.pending.value.id), Some(c)));
    RunOneMore(source, events, Receive(r, next, now));
    RunKeeps(source, events);
    hide Run, Conserved, IdsGrow;
    NamesItsSeed(c);
  }

  lemma NamesItsSeed(c: Control)
    ensures forall seed :: Names(c, seed) ==> SeedOf(c) == Some(seed)
    ensures SeedOf(c).Some? ==> Names(c, SeedOf(c).value)
  {
  }

  /** What any other record leads to: only a failure of the operation's own command, an oversized or malformed
      control, or a move to another session ends the wait. */
  lemma OtherRecordsAnswer(source: string, events: seq<Event>, r: Record, next: string, now: nat)
    requires Waits(Run(source, events))
    ensures var w := Run(source, events);
            var t := Run(source, events + [Receive(r, next, now)]);
            var own := Numbered(w.side.pending.value.id);
            && SameAround(w, t) && t.source == (if IsControlRecord(r) then w.source else next)
            && match r
            case Response(to, success) =>
              if to == own && !success then Answered(w, t, Failed(Rejected))
              else if to == Foreign && next != w.source then Answered(w, t, Cancelled)
              else StillWaits(w, t)
            case Status(bytes, body) =>
              && (bytes > MAX_CONTROL_BYTES ==> Answered(w, t, Failed(TooLarge)))
              && (bytes <= MAX_CONTROL_BYTES && (body == Unparsable || body.id != own) ==> StillWaits(w, t))
              && (bytes <= MAX_CONTROL_BYTES && body == Parsed(own, None) ==> Answered(w, t, Failed(InvalidControl)))
            case Other => if next != w.source then Answered(w, t, Cancelled) else StillWaits(w, t)
  {
    RunOneMore(source, events, Receive(r, next, now));
    RunKeeps(source, events);
    hide Run, Conserved, IdsGrow;
  }

  /** A session that had changed before fails the wait whatever the record says. */
  lemma ChangedSourceAnswers(source: string, events: seq<Event>, r: Record, next: string, now: nat)
    requires var w := Run(source, events);
             !w.stopped && w.creation.Some? && w.side.pending.Some? && w.side.pending.value.source != w.source
    ensures Answered(Run(source, events), Run(source, events + [Receive(r, next, now)]), Failed(SourceChanged))
  {
    RunKeeps(source, events);
    RunOneMore(source, events, Receive(r, next, now));
    hide Run, Conserved, IdsGrow;
  }

  /** A new operation has the next id and a whole timeout; none is begun while one is pending, without a session
      or when the ids are used up, and then nothing changes. */
  lemma BeginsOrRefuses(s: Side, source: string, now: nat)
    ensures var (t, refused) := Begun(s, source, now);
            && (refused.Some? <==> s.pending.Some? || source == "" || s.nextId >= U64_MAX)
            && (refused.Some? ==> t == s)
            && (refused.None? ==> t == Side(Some(Pending(s.nextId + 1, source, Some(now + PREPARATION_TIMEOUT_MS))),
                                            s.nextId + 1, s.destination))
  {
  }

  /** A creation taken from the queue: ignored before the worker is ready, while it copies, or when it is already
      withdrawn; else refused with the first reason there is, or begun under a new id with a whole timeout. */
  lemma PreparingAnswers(source: string, events: seq<Event>, requested: Creation, supported: bool, now: nat)
    ensures var w, t := Run(source, events), Run(source, events + [Prepare(requested, supported, now)]);
            if w.stopped || !w.initialized || w.materializing.Some? || w.wanted == Some(requested) then t == w
            else
              var refusal :=
                if !supported then Some(Unsupported) else if w.side.pending.Some? then Some(AlreadyPreparing)
                else if w.source == "" then Some(NotAttached)
                else if w.side.nextId >= U64_MAX then Some(Exhausted) else None;
              && t.accepted == w.accepted + [requested] && SameAround(w, t) && t.source == w.source
              && (if refusal.Some? then
                    StillWaits(w.(published := t.published), t)
                    && t.published == w.published + [Prepared(requested, Failed(refusal.value))]
                  else
                    && t.creation == Some(requested) && t.published == w.published && t.materializing == None
                    && t.side.pending ==
                       Some(Pending(w.side.nextId + 1, w.source, Some(now + PREPARATION_TIMEOUT_MS))))
  {
    RunOneMore(source, events, Prepare(requested, supported, now));
  }

  /** No other event answers anything, but for a cancellation, a due deadline and the end of a copy. */
  lemma OthersAnswerNothing(source: string, events: seq<Event>, e: Event)
    requires !e.Receive? && !e.Prepare? && !e.Completed?
    ensures var w, t := Run(source, events), Run(source, events + [e]);
            && t.accepted == w.accepted && t.issued == w.issued
            && t.stopped == (w.stopped || e == Stop) && (w.stopped ==> t == w)
            && (!w.stopped ==>
                  && t.initialized == (w.initialized || e == Initialize)
                  && t.source == (if e.SourceMoves? then e.next else w.source)
                  && t.wanted == (if e.CancelSide? then Some(e.requested) else w.wanted)
                  && t.changed == (e.CancelSide? || (w.changed && e != CancellationChanged)))
            && (StillWaits(w, t)
                || (e == CancellationChanged && w.changed && w.wanted == w.creation && Answered(w, t, Cancelled))
                || (e.Deadline? && w.side.Due(e.now) && Answered(w, t, Failed(TimedOut))))
  {
    RunKeeps(source, events);
    RunOneMore(source, events, e);
    hide Run, Conserved, IdsGrow, Received, PrepareStep;
  }

  // ---- the same steps on the worker's own variables ----

  class SessionWorker {
    const side: SideSessionControl
    var source: string
    var initialized: bool
    var stopped: bool
    var creation: Option<Creation>
    var materializing: Option<Materializing>
    var wanted: Option<Creation>
    var changed: bool
    var accepted: seq<Creation>
    var issued: seq<Issue>
    var published: seq<Prepared>

    ghost function State(): Worker
      reads this, side
    {
      Worker(side.State(), source, initialized, stopped, creation, materializing, wanted, changed,
             accepted, issued, published)
    }

    constructor (source: string)
      ensures State() == Fresh(source) && fresh(side)
    {
      side := new SideSessionControl();
      this.source, initialized, stopped, creation, materializing := source, false, false, None, None;
      wanted, changed, accepted, issued, published := None, false, [], [], [];
    }

    method Publish(c: Creation, result: SideResult)
      modifies `published
      ensures published == old(published) + [Prepared(c, result)]
    {
      published := published + [Prepared(c, result)];
    }

    method CancelPending(result: SideResult)
      modifies this, side
      ensures State() == Withdraw(old(State()), result)
    {
      var _ := side.CancelCommand();
      if creation.Some? {
        Publish(creation.value, result);
        creation := None;
      }
    }

    method Hear(r: Record, now: nat)
      modifies this, side
      ensures State() == Received(old(State()), r, now)
    {
      var result := side.Record(r, source, now);
      if result.Some? && creation.Some? {
        var taken := creation.value;
        creation := None;
        if result.value.Ready? {
          var directory := side.TakeDestination();
          materializing := Some(Materializing(taken, result.value.seed, directory));
        } else {
          Publish(taken, result.value);
        }
      }
    }

    method PrepareSide(requested: Creation, supported: bool, now: nat)
      modifies this, side
      ensures State() == PrepareStep(old(State()), requested, supported, now)
    {
      if !initialized || materializing.Some? || wanted == Some(requested) {
        return;
      }
      accepted := accepted + [requested];
      var refused := Some(Unsupported);
      if supported {
        refused := side.Begin(source, now);
      }
      if refused.Some? {
        Publish(requested, Failed(refused.value));
      } else {
        creation, issued := Some(requested), issued + [Issue(side.nextId, requested)];
      }
    }

    method Receive(r: Record, next: string, now: nat)
      modifies this, side
      ensures State() == Moved(Received(old(State()), r, now), r, next)
    {
      hide Received, IsControlRecord;
      Hear(r, now);
      if !IsControlRecord(r) && next != source {
        source := next;
        CancelPending(Cancelled);
      }
    }

    method Cancellation()
      modifies this, side
      ensures State() == Step(old(State()).(stopped := false), CancellationChanged).(stopped := stopped)
      ensures stopped == old(stopped)
    {
      if changed {
        changed := false;
        if creation.Some? && wanted == creation {
          CancelPending(Cancelled);
        }
      }
    }

    /** One turn of the select loop. */
    method Turn(e: Event)
      modifies this, side
      ensures State() == Step(old(State()), e)
    {
      if stopped {
        return;
      }
      match e
      case Initialize => initialized := true;
      case Stop => stopped := true;
      case Receive(r, next, now) => Receive(r, next, now);
      case SourceMoves(next) => source := next;
      case Prepare(requested, supported, now) => PrepareSide(requested, supported, now);
      case CancelSide(requested) => wanted, changed := Some(requested), true;
      case CancellationChanged => Cancellation();
      case Completed(copied) =>
        if materializing.Some? {
          Publish(materializing.value.creation, if copied == None then Failed(CopyStopped) else copied.value);
          materializing := None;
        }
      case Deadline(now) =>
        if side.pending.Some? && side.pending.value.deadline.Some? && side.pending.value.deadline.value <= now {
          CancelPending(Failed(TimedOut));
        }
    }
  }
}
