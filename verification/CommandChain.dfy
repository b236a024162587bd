/** Commands of one client socket: serialised behind a tail promise, suspended at awaits, and silent once
    their connection is gone. Every step is one uninterrupted segment of the source. */
module CommandChain {
  import opened Basics

  datatype Kind = ModelSet | ModelGet | Reload | Compaction | Ping | Prompt | Direct | ListSessions

  /** Operations on one lane run one at a time: the socket's model chain, or one connection's prompts. */
  datatype Lane = Models | Prompts(conn: nat)

  datatype Point =
    | Waiting
    | Selecting                  // model-set: the host selects
    | Reloading | Configuring    // the bodies of the two queued commands
    | Acting                     // a prompt operation
    | Executing                  // a direct command
    | Listing                    // sessions, perhaps reported in parts
    | Catalog                    // sendModel: the model catalog is being read
    | AfterCatalog(sent: bool)   // sendModel has returned
    | Failed                     // a rejection on its way to the handler
    | Finished

  datatype Frame =
    | ErrorFrame | ModelFrame | RefreshedFrames | ResultFrame | StatusFrame | PongFrame | SessionsFrame | QueueFrame

  /** How an awaited call ended, whether the abort signal was raised by then, and whether the agent has a
      status to report. A list of sessions that is not complete is a part of one, or was given up. */
  datatype Answer = Answer(ok: bool, aborted: bool, status: bool) {
    predicate Clean() { ok && !aborted }
  }

  /** `conn` is the connection captured on arrival, `after` the promise it waits for; `heard` are the answers so
      far, and `steady` says that it passed its staleness check at each of them. */
  datatype Op = Op(
    kind: Kind, conn: Option<nat>, after: Option<nat>, point: Point, heard: seq<Answer>, steady: bool)
  {
    predicate Chained() { !kind.Direct? && !kind.ListSessions? }

    /** Direct commands wait for the chain, too, without being part of it. */
    predicate Queued() { !kind.ListSessions? }

    function Lane(): Lane {
      if kind.Prompt? && conn.Some? then Prompts(conn.value) else Models
    }
  }

  // ---- what one segment does ----

  function If(b: bool, f: Frame): seq<Frame> { if b then [f] else [] }

  /** One segment of an operation; `current` is the staleness check. */
  function Segment(kind: Kind, point: Point, current: bool, a: Answer): (seq<Frame>, Point) {
    match point
    case Waiting => ([],
      match kind
      case ModelSet => if current && a.ok then Selecting else Finished
      case ModelGet => if current then Catalog else Finished
      case Ping => if current then Catalog else Finished
      case Reload => if !current then Finished else if a.ok then Reloading else Failed
      case Compaction => if !current then Finished else if a.ok then Configuring else Failed
      case Prompt => if current then Acting else Finished
      case Direct => Executing
      case ListSessions => Listing)
    case Selecting =>
      if !a.ok then (If(current, ErrorFrame), Finished)
      else ([], if current then Catalog else Finished)
    case Reloading =>
      if !a.ok then ([], Failed)
      else if !current then ([], Finished)
      else if a.aborted then ([], Failed)
      else ([RefreshedFrames], Catalog)
    case Configuring =>
      if a.ok then (If(current, ResultFrame), Finished) else ([], Failed)
    case Acting => (If(current, QueueFrame), Finished)
    case Executing =>
      if !current then ([], Finished)
      else (If(a.status, StatusFrame) + [if a.Clean() then ResultFrame else ErrorFrame], Finished)
    case Listing =>
      if !a.ok && a.aborted then (If(current, ErrorFrame), Finished)
      else (If(current, SessionsFrame), if a.ok then Finished else Listing)
    case Catalog =>
      var wanted := current && !(kind.Reload? && a.aborted);
      (If(wanted, if a.ok then ModelFrame else ErrorFrame), AfterCatalog(a.ok && wanted))
    case AfterCatalog(sent) =>
      if kind.Reload? then
        if sent && !a.aborted then (If(current, ResultFrame), Finished) else ([], Failed)
      else if kind.Ping? then
        (If(!sent && current, ErrorFrame) + If(current && a.status, StatusFrame) + If(current, PongFrame), Finished)
      else ([], Finished)
    case Failed => (If(current, ErrorFrame), Finished)
    case Finished => ([], Finished)
  }

  /** Whatever the operation, whatever it was waiting for and however that ended: a segment that fails its
      staleness check says nothing, and sets nothing going but a direct command or a list, which check later. */
  lemma StaleIsSilent(kind: Kind, point: Point, a: Answer)
    ensures Segment(kind, point, false, a).0 == []
    ensures Segment(kind, point, false, a).1 !in {Selecting, Reloading, Configuring, Acting, Catalog}
  {
  }

  // ---- the socket ----

  /** What the socket sends, and what happens to its connection in between; a ping without a connection is
      answered by a bare pong. */
  datatype Entry =
    | Sent(op: nat, conn: nat, frame: Frame)
    | BarePong
    | Assigned(next: Option<nat>)
    | Joined(conn: nat)
    | Gone(conn: nat)

  datatype Socket = Socket(
    conn: Option<nat>,
    registered: set<nat>,
    gone: set<nat>,              // detached for good; connections are never registered again
    ops: seq<Op>,
    tails: map<Lane, nat>,       // the last promise of each lane; absent for null
    trace: seq<Entry>)
  {
    predicate IsCurrent(c: Option<nat>) { c.Some? && conn == c && c.value in registered }

    /** The staleness check of an operation. The prompt queue is shared by all sockets and asks only whether the
        connection is registered. */
    predicate Passes(op: Op) {
      if op.kind.Prompt? then op.conn.Some? && op.conn.value in registered else IsCurrent(op.conn)
    }
  }

  const FRESH: Socket := Socket(None, {}, {}, [], map[], [])

  datatype Event =
    | Become(next: Option<nat>)              // the socket's connection is reassigned
    | Register(conn: nat)
    | Unregister(conn: nat)
    | Arrive(kind: Kind)
    | Advance(op: nat, answer: Answer)
    | ClearTail(op: nat)                     // the finalizer of a model-chain promise

  function Arrived(s: Socket, kind: Kind): Socket {
    var bare := Op(kind, s.conn, None, Waiting, [], true);
    var lane := bare.Lane();
    var after := if !kind.ListSessions? && lane in s.tails then Some(s.tails[lane]) else None;
    var op := bare.(after := after);
    s.(ops := s.ops + [op], tails := if op.Chained() then s.tails[lane := |s.ops|] else s.tails)
  }

  predicate MayRun(ops: seq<Op>, op: Op) {
    && !op.point.Finished?
    && (op.point.Waiting? && op.after.Some? ==>
          op.after.value < |ops| && ops[op.after.value].point.Finished?)
  }

  function Entries(op: nat, conn: nat, frames: seq<Frame>): seq<Entry> {
    if frames == [] then [] else [Sent(op, conn, frames[0])] + Entries(op, conn, frames[1..])
  }

  function Advanced(s: Socket, i: nat, a: Answer): Socket
    requires i < |s.ops|
  {
    var op := s.ops[i];
    var current := s.Passes(op);
    var (frames, point) := Segment(op.kind, op.point, current, a);
    s.(ops := s.ops[i := op.(point := point, heard := op.heard + [a], steady := op.steady && current)],
       trace := s.trace + (if op.conn.Some? then Entries(i, op.conn.value, frames) else []))
  }

  function Step(s: Socket, e: Event): Socket {
    match e
    case Become(next) => s.(conn := next, trace := s.trace + [Assigned(next)])
    case Register(c) =>
      if c in s.gone || c in s.registered then s
      else s.(registered := s.registered + {c}, trace := s.trace + [Joined(c)])
    case Unregister(c) =>
      if c !in s.registered then s
      else s.(registered := s.registered - {c}, gone := s.gone + {c}, trace := s.trace + [Gone(c)])
    case Arrive(kind) =>
      if s.conn.Some? || kind.ModelSet? then Arrived(s, kind)
      else if kind.Ping? then s.(trace := s.trace + [BarePong])
      else s
    case Advance(i, a) => if i < |s.ops| && MayRun(s.ops, s.ops[i]) then Advanced(s, i, a) else s
    case ClearTail(i) =>
      if i < |s.ops| && s.ops[i].point.Finished? && Models in s.tails && s.tails[Models] == i
      then s.(tails := s.tails - {Models}) else s
  }

  function Run(events: seq<Event>): Socket {
    if events == [] then FRESH else Step(Run(events[..|events| - 1]), events[|events| - 1])
  }

  // ---- the same steps on the dispatcher's own variables ----

  class Dispatcher {
    var conn: Option<nat>
    var registered: set<nat>
    var gone: set<nat>
    var ops: seq<Op>
    var tails: map<Lane, nat>
    var trace: seq<Entry>

    ghost function State(): Socket
      reads this
    {
      Socket(conn, registered, gone, ops, tails, trace)
    }

    constructor ()
      ensures State() == FRESH
    {
      conn, registered, gone, ops, tails, trace := None, {}, {}, [], map[], [];
    }

    /** Captures the connection and the chain's tail; a chained operation becomes the new tail. */
    method Queue(kind: Kind)
      modifies `ops, `tails
      ensures State() == Arrived(old(State()), kind)
    {
      var op := Op(kind, conn, None, Waiting, [], true);
      var lane := op.Lane();
      if !kind.ListSessions? && lane in tails {
        op := op.(after := Some(tails[lane]));
      }
      if op.Chained() {
        tails := tails[lane := |ops|];
      }
      ops := ops + [op];
    }

    method Send(i: nat, c: nat, frames: seq<Frame>)
      modifies `trace
      ensures trace == old(trace) + Entries(i, c, frames)
    {
      var k := 0;
      while k < |frames|
        invariant k <= |frames|
        invariant trace + Entries(i, c, frames[k..]) == old(trace) + Entries(i, c, frames)
      {
        trace := trace + [Sent(i, c, frames[k])];
        k := k + 1;
      }
    }

    /** Runs operation `i` up to its next await. */
    method Advance(i: nat, a: Answer)
      requires i < |ops|
      modifies `ops, `trace
      ensures State() == Advanced(old(State()), i, a)
    {
      var op := ops[i];
      var current := op.conn.Some? && op.conn.value in registered && (op.kind.Prompt? || conn == op.conn);
      var (frames, point) := Segment(op.kind, op.point, current, a);
      ops := ops[i := op.(point := point, heard := op.heard + [a], steady := op.steady && current)];
      if op.conn.Some? {
        Send(i, op.conn.value, frames);
      }
    }

    method Handle(e: Event)
      modifies this
      ensures State() == Step(old(State()), e)
    {
      match e
      case Become(next) =>
        conn, trace := next, trace + [Assigned(next)];
      case Register(c) =>
        if c !in gone && c !in registered {
          registered, trace := registered + {c}, trace + [Joined(c)];
        }
      case Unregister(c) =>
        if c in registered {
          registered, gone, trace := registered - {c}, gone + {c}, trace + [Gone(c)];
        }
      case Arrive(kind) =>
        if conn.Some? || kind.ModelSet? {
          Queue(kind);
        } else if kind.Ping? {
          trace := trace + [BarePong];
        }
      case Advance(i, a) =>
        if i < |ops| && MayRun(ops, ops[i]) {
          Advance(i, a);
        }
      case ClearTail(i) =>
        if i < |ops| && ops[i].point.Finished? && Models in tails && tails[Models] == i {
          tails := tails - {Models};
        }
    }
  }
}
