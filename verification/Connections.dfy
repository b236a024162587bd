/** One client socket of the bridge: connections attached to it, the operations suspended at their
    awaits, and the approvals its connections wait for. Every step is one uninterrupted segment of the
    source; the steps of different operations interleave freely. */
module Connections {
  import opened Basics

  datatype Kind = Hello | New | NewInput | AttachSession

  /** Where an operation is suspended. */
  datatype Point =
    | HelloResuming             // looking for the session to resume
    | HelloCreating             // creating a first session
    | WaitingModels             // new input, behind pending model updates
    | Creating                  // creating a session to switch to
    | Resuming                  // looking for the session to attach
    | Swapped(next: nat)        // attached, but not yet the socket's connection
    | Done

  /** An operation and the connection it captured when it began. */
  datatype Task = Task(kind: Kind, current: Option<nat>, point: Point)

  /** `pending`: still in its connection's map; `settled`: the latch of its settle-once callback. */
  datatype Approval = Approval(owner: nat, pending: bool, settled: bool, resolutions: nat) {
    function Settle(): Approval {
      if settled then this else Approval(owner, false, true, resolutions + 1)
    }

    /** What becomes of it when connection `c` is cleaned up. */
    function CancelledWith(c: nat): Approval {
      if owner == c && pending then Settle().(pending := false) else this
    }
  }

  /** Connections are numbered as they are attached. */
  datatype Socket = Socket(
    conn: Option<nat>,
    registered: set<nat>,
    attached: nat,
    greeted: bool,
    tasks: seq<Task>,
    cleaned: seq<nat>,          // cleanups run, in order
    approvals: seq<Approval>)
  {
    predicate IsCurrent(c: nat) { conn == Some(c) && c in registered }
  }

  const FRESH: Socket := Socket(None, {}, 0, false, [], [], [])

  datatype Event =
    | Greet(resume: bool)
    | Refuse                   // a hello with the wrong token or a newer protocol
    | Receive(kind: Kind)
    | Resume(task: nat, ok: bool)
    | Close
    | Dispose
    | Request(owner: nat)
    | Answer(approval: nat)
    | Abort(approval: nat)

  // ---- connection.js ----

  function SettledOf(approvals: seq<Approval>, owner: nat): (r: seq<Approval>)
    ensures |r| == |approvals|
    ensures forall k | 0 <= k < |r| ::
              r[k] == approvals[k].CancelledWith(owner)
  {
    seq(|approvals|, k requires 0 <= k < |approvals| =>
      approvals[k].CancelledWith(owner))
  }

  /** Unregistering runs the cleanup: events off, abort, every pending approval cancelled. */
  function Detached(s: Socket, c: nat): Socket {
    if c !in s.registered then s
    else s.(registered := s.registered - {c}, cleaned := s.cleaned + [c], approvals := SettledOf(s.approvals, c))
  }

  function Attached(s: Socket): Socket {
    s.(registered := s.registered + {s.attached}, attached := s.attached + 1)
  }

  // ---- the suspended operations ----

  function At(s: Socket, i: nat, point: Point): Socket
    requires i < |s.tasks|
  {
    s.(tasks := s.tasks[i := s.tasks[i].(point := point)])
  }

  function Continued(s: Socket, i: nat, ok: bool): Socket
    requires i < |s.tasks|
  {
    var t := s.tasks[i];
    match t.point
    case Done => s
    case HelloResuming =>
      if ok then At(Attached(s).(conn := Some(s.attached)), i, Done) else At(s, i, HelloCreating)
    case HelloCreating =>
      if ok then At(Attached(s), i, Swapped(s.attached)) else At(s, i, Done)
    case WaitingModels =>
      At(s, i, if t.current.Some? && s.IsCurrent(t.current.value) then Creating else Done)
    case Creating =>
      if ok && t.current.Some? && t.current.value in s.registered
      then At(Attached(Detached(s, t.current.value)), i, Swapped(s.attached))
      else At(s, i, Done)
    case Swapped(next) =>
      if t.current == None || s.conn == t.current || t.current.value !in s.registered
      then At(s.(conn := Some(next)), i, Done)
      else At(s, i, Done)
    case Resuming =>
      if ok && t.current.Some? && s.IsCurrent(t.current.value)
      then At(Attached(Detached(s, t.current.value)).(conn := Some(s.attached)), i, Done)
      else At(s, i, Done)
  }

  function FirstPoint(kind: Kind): Point {
    match kind
    case Hello => HelloCreating
    case New => Creating
    case NewInput => WaitingModels
    case AttachSession => Resuming
  }

  function DetachedAll(s: Socket, ids: nat): Socket {
    if ids == 0 then s else Detached(DetachedAll(s, ids - 1), ids - 1)
  }

  function SettledAt(s: Socket, k: nat): Socket
    requires k < |s.approvals|
  {
    s.(approvals := s.approvals[k := s.approvals[k].Settle()])
  }

  function Step(s: Socket, e: Event): Socket {
    match e
    case Greet(resume) =>
      s.(greeted := true, tasks := s.tasks + [Task(Hello, None, if resume then HelloResuming else HelloCreating)])
    case Refuse => s
    case Receive(kind) =>
      if s.conn == None || kind == Hello then s else s.(tasks := s.tasks + [Task(kind, s.conn, FirstPoint(kind))])
    case Resume(i, ok) => if i < |s.tasks| then Continued(s, i, ok) else s
    case Close => if s.conn == None then s else Detached(s, s.conn.value).(conn := None)
    case Dispose => DetachedAll(s, s.attached)
    case Request(owner) =>
      if owner in s.registered then s.(approvals := s.approvals + [Approval(owner, true, false, 0)]) else s
    case Answer(k) =>
      if k < |s.approvals| && s.conn == Some(s.approvals[k].owner) && s.approvals[k].pending then SettledAt(s, k) else s
    case Abort(k) => if k < |s.approvals| then SettledAt(s, k) else s
  }

  function Run(events: seq<Event>): Socket {
    if events == [] then FRESH else Step(Run(events[..|events| - 1]), events[|events| - 1])
  }

  function Greetings(events: seq<Event>): nat {
    if events == [] then 0
    else Greetings(events[..|events| - 1]) + (if events[|events| - 1].Greet? then 1 else 0)
  }

  // ---- the invariant ----

  ghost predicate Numbered(s: Socket) {
    && (forall c <- s.registered :: c < s.attached)
    && (forall k | 0 <= k < |s.cleaned| :: s.cleaned[k] < s.attached && s.cleaned[k] !in s.registered)
    && (forall j, k | 0 <= j < k < |s.cleaned| :: s.cleaned[j] != s.cleaned[k])
    && (s.conn.Some? ==> s.conn.value < s.attached)
    && (forall i | 0 <= i < |s.tasks| && s.tasks[i].current.Some? :: s.tasks[i].current.value < s.attached)
    && (forall i | 0 <= i < |s.tasks| && s.tasks[i].point.Swapped? :: s.tasks[i].point.next < s.attached)
  }

  ghost predicate OneRegistered(s: Socket) {
    forall c <- s.registered, d <- s.registered :: c == d
  }

  predicate Greeting(point: Point) { point.HelloResuming? || point.HelloCreating? }

  /** Until its one hello has attached, the socket has nothing else. */
  ghost predicate HelloFirst(s: Socket) {
    && (!s.greeted ==> s.tasks == [])
    && (s.attached == 0 ==> s.conn == None && |s.tasks| <= 1)
    && (s.greeted <==> s.tasks != [])
    && (s.attached > 0 ==> s.greeted && forall i | 0 <= i < |s.tasks| :: !Greeting(s.tasks[i].point))
    && (forall i | 0 <= i < |s.tasks| && s.tasks[i].current == None ::
          Greeting(s.tasks[i].point) || s.tasks[i].point.Swapped? || s.tasks[i].point.Done?)
  }

  /** A connection waiting to be assigned is nobody's current one; what it replaced is unregistered. */
  ghost predicate Swaps(s: Socket) {
    && (forall i | 0 <= i < |s.tasks| && s.tasks[i].point.Swapped? ::
          && s.conn != Some(s.tasks[i].point.next)
          && (s.tasks[i].point.next in s.registered || s.registered == {})
          && (s.tasks[i].current.Some? ==> s.tasks[i].current.value !in s.registered))
    && (forall i, j | 0 <= i < |s.tasks| && 0 <= j < |s.tasks| && s.tasks[i].point.Swapped? ::
          s.tasks[j].current != Some(s.tasks[i].point.next))
    && (forall i, j | 0 <= i < j < |s.tasks| && s.tasks[i].point.Swapped? && s.tasks[j].point.Swapped? ::
          s.tasks[i].point.next != s.tasks[j].point.next)
  }

  /** The registered connection is the socket's, or about to become it. */
  ghost predicate NoOrphan(s: Socket) {
    forall c <- s.registered :: s.conn == Some(c) || exists i :: 0 <= i < |s.tasks| && s.tasks[i].point == Swapped(c)
  }

  ghost predicate ApprovalsOnce(s: Socket) {
    forall k | 0 <= k < |s.approvals| ::
      var a := s.approvals[k];
      && a.resolutions == (if a.settled then 1 else 0)
      && a.pending == !a.settled
      && (a.pending ==> a.owner in s.registered)
  }

  ghost predicate Inv(s: Socket) {
    Numbered(s) && OneRegistered(s) && HelloFirst(s) && Swaps(s) && NoOrphan(s) && ApprovalsOnce(s)
  }

  lemma DetachKeeps(s: Socket, c: nat)
    requires Inv(s)
    ensures Inv(Detached(s, c)) && c !in Detached(s, c).registered
    ensures c in s.registered ==> Detached(s, c).registered == {}
  {
    if c in s.registered {
      assert s.registered == {c};
    }
  }

  /** With one connection registered, disposing of all of them is detaching that one. */
  lemma {:induction false} DetachedAllIsOne(s: Socket, ids: nat, c: nat)
    requires s.registered == {c}
    ensures DetachedAll(s, ids) == if c < ids then Detached(s, c) else s
  {
    if ids > 0 {
      DetachedAllIsOne(s, ids - 1, c);
    }
  }

  lemma {:induction false} NothingToDetach(s: Socket, ids: nat)
    requires s.registered == {}
    ensures DetachedAll(s, ids) == s
  {
    if ids > 0 {
      NothingToDetach(s, ids - 1);
    }
  }

  lemma DisposeKeeps(s: Socket)
    requires Inv(s)
    ensures Inv(DetachedAll(s, s.attached)) && DetachedAll(s, s.attached).registered == {}
  {
    if s.registered == {} {
      NothingToDetach(s, s.attached);
    } else {
      var c :| c in s.registered;
      assert s.registered == {c};
      DetachedAllIsOne(s, s.attached, c);
      DetachKeeps(s, c);
    }
  }

  /** Moving an operation on without touching connections. */
  lemma MoveKeeps(s: Socket, i: nat, point: Point)
    requires Inv(s) && i < |s.tasks|
    requires
      || point == Done
      || (point == Creating && s.tasks[i].current.Some?)
      || (point == HelloCreating && s.tasks[i].point.HelloResuming?)
    requires s.tasks[i].point.Swapped? ==> s.conn == Some(s.tasks[i].point.next)
    ensures Inv(At(s, i, point))
  {
    var t := At(s, i, point);
    forall c <- s.registered | s.conn != Some(c)
      ensures exists j :: 0 <= j < |t.tasks| && t.tasks[j].point == Swapped(c)
    {
      var j :| 0 <= j < |s.tasks| && s.tasks[j].point == Swapped(c);
      assert t.tasks[j].point == Swapped(c);
    }
  }

  lemma FirstAttachKeeps(s: Socket, i: nat, atOnce: bool)
    requires Inv(s) && i < |s.tasks| && (s.tasks[i].point.HelloResuming? || s.tasks[i].point.HelloCreating?)
    ensures var t := Attached(s);
            Inv(At(if atOnce then t.(conn := Some(s.attached)) else t, i, if atOnce then Done else Swapped(s.attached)))
  {
    assert s.attached == 0 && s.registered == {};
    assert At(Attached(s), i, Swapped(0)).tasks[i].point == Swapped(0);
  }

  /** Replacing the one registered connection by a new one, in a single segment. */
  lemma ReplaceKeeps(s: Socket, i: nat, current: nat, atOnce: bool)
    requires Inv(s) && i < |s.tasks| && s.tasks[i].current == Some(current) && current in s.registered
    requires s.tasks[i].point == (if atOnce then Resuming else Creating)
    requires atOnce ==> s.conn == Some(current)
    ensures var t := Attached(Detached(s, current));
            Inv(At(if atOnce then t.(conn := Some(s.attached)) else t, i, if atOnce then Done else Swapped(s.attached)))
  {
    DetachKeeps(s, current);
    NoneWaits(s, current);
    SecondAttachKeeps(Detached(s, current), i, atOnce);
  }

  lemma SecondAttachKeeps(s: Socket, i: nat, atOnce: bool)
    requires Inv(s) && s.registered == {} && s.attached > 0 && i < |s.tasks| && s.tasks[i].current.Some?
    requires forall j | 0 <= j < |s.tasks| :: !s.tasks[j].point.Swapped?
    ensures var t := Attached(s);
            Inv(At(if atOnce then t.(conn := Some(s.attached)) else t, i, if atOnce then Done else Swapped(s.attached)))
  {
    assert At(Attached(s), i, Swapped(s.attached)).tasks[i].point == Swapped(s.attached);
  }

  /** While a captured connection is registered, no other swap waits to be assigned. */
  lemma NoneWaits(s: Socket, current: nat)
    requires Inv(s) && current in s.registered
    requires exists i :: 0 <= i < |s.tasks| && s.tasks[i].current == Some(current)
    ensures forall j | 0 <= j < |s.tasks| :: !s.tasks[j].point.Swapped?
  {
  }

  lemma AssignKeeps(s: Socket, i: nat)
    requires Inv(s) && i < |s.tasks| && s.tasks[i].point.Swapped?
    ensures Inv(Continued(s, i, true)) && Continued(s, i, false) == Continued(s, i, true)
    ensures Continued(s, i, true).conn == Some(s.tasks[i].point.next)
  {
  }

  lemma ContinueKeeps(s: Socket, i: nat, ok: bool)
    requires Inv(s) && i < |s.tasks|
    ensures Inv(Continued(s, i, ok))
  {
    var t := s.tasks[i];
    match t.point
    case Done =>
    case HelloResuming =>
      if ok { FirstAttachKeeps(s, i, true); } else { MoveKeeps(s, i, HelloCreating); }
    case HelloCreating =>
      if ok { FirstAttachKeeps(s, i, false); } else { MoveKeeps(s, i, Done); }
    case WaitingModels =>
      MoveKeeps(s, i, if s.IsCurrent(t.current.value) then Creating else Done);
    case Creating =>
      if ok && t.current.value in s.registered {
        ReplaceKeeps(s, i, t.current.value, false);
      } else {
        MoveKeeps(s, i, Done);
      }
    case Swapped(next) =>
      AssignKeeps(s, i);
    case Resuming =>
      if ok && s.IsCurrent(t.current.value) {
        ReplaceKeeps(s, i, t.current.value, true);
      } else {
        MoveKeeps(s, i, Done);
      }
  }

  /** An operation that begins captures the socket's connection. */
  predicate Begins(s: Socket, task: Task) {
    s.conn.Some? && task.current == s.conn && !Greeting(task.point) && !task.point.Swapped?
  }

  lemma BeginningKeepsOrder(s: Socket, task: Task)
    requires Numbered(s) && HelloFirst(s) && Begins(s, task) && s.tasks != []
    ensures var t := s.(tasks := s.tasks + [task]); Numbered(t) && HelloFirst(t)
  {
  }

  lemma BeginningKeepsSwaps(s: Socket, task: Task)
    requires Swaps(s) && Begins(s, task)
    ensures Swaps(s.(tasks := s.tasks + [task]))
  {
  }

  lemma BeginningKeepsOwned(s: Socket, task: Task)
    requires NoOrphan(s)
    ensures NoOrphan(s.(tasks := s.tasks + [task]))
  {
    var t := s.(tasks := s.tasks + [task]);
    forall c <- t.registered | t.conn != Some(c)
      ensures exists i :: 0 <= i < |t.tasks| && t.tasks[i].point == Swapped(c)
    {
      var i :| 0 <= i < |s.tasks| && s.tasks[i].point == Swapped(c);
      assert t.tasks[i].point == Swapped(c);
    }
  }

  lemma ReceiveKeeps(s: Socket, kind: Kind)
    requires Inv(s)
    ensures Inv(Step(s, Receive(kind)))
  {
    if s.conn.Some? && kind != Hello {
      var task := Task(kind, s.conn, FirstPoint(kind));
      SomethingBegan(s);
      hide Numbered, HelloFirst, Swaps, NoOrphan;
      BeginningKeepsOrder(s, task);
      BeginningKeepsSwaps(s, task);
      BeginningKeepsOwned(s, task);
    }
  }

  lemma SomethingBegan(s: Socket)
    requires HelloFirst(s) && s.conn.Some?
    ensures s.tasks != []
  {
  }

  lemma StepKeeps(s: Socket, e: Event)
    requires Inv(s) && (e.Greet? ==> !s.greeted)
    ensures Inv(Step(s, e))
  {
    match e
    case Greet(resume) => GreetKeeps(s, resume);
    case Refuse =>
    case Receive(kind) => ReceiveKeeps(s, kind);
    case Resume(i, ok) => if i < |s.tasks| { ContinueKeeps(s, i, ok); }
    case Close => if s.conn.Some? { CloseKeeps(s, s.conn.value); }
    case Dispose => DisposeKeeps(s);
    case _ => SettlingKeeps(s, e);
  }

  lemma GreetKeeps(s: Socket, resume: bool)
    requires Inv(s) && !s.greeted
    ensures Inv(Step(s, Greet(resume)))
  {
  }

  lemma SettlingKeeps(s: Socket, e: Event)
    requires Inv(s) && (e.Request? || e.Answer? || e.Abort?)
    ensures Inv(Step(s, e))
  {
    var t := Step(s, e);
    assert t == s.(approvals := t.approvals);
    assert ApprovalsOnce(t);
  }

  lemma CloseKeeps(s: Socket, c: nat)
    requires Inv(s) && s.conn == Some(c)
    ensures Inv(Detached(s, c).(conn := None))
  {
    DetachKeeps(s, c);
  }

  /** A connection leaves the registry only through its cleanup. */
  ghost predicate NoneDropped(s: Socket) {
    forall c: nat | c < s.attached :: c in s.registered || c in s.cleaned
  }

  lemma {:induction false} DetachedAllDropsNone(s: Socket, ids: nat)
    requires NoneDropped(s)
    ensures NoneDropped(DetachedAll(s, ids))
  {
    if ids > 0 {
      DetachedAllDropsNone(s, ids - 1);
    }
  }

  lemma StepDropsNone(s: Socket, e: Event)
    requires NoneDropped(s)
    ensures NoneDropped(Step(s, e))
  {
    if e.Dispose? {
      DetachedAllDropsNone(s, s.attached);
    }
  }

  // ---- whole runs ----

  lemma {:induction false} RunKeeps(events: seq<Event>)
    requires Greetings(events) <= 1
    ensures Inv(Run(events)) && NoneDropped(Run(events)) && (Run(events).greeted <==> Greetings(events) == 1)
  {
    if events != [] {
      RunKeeps(events[..|events| - 1]);
      StepDropsNone(Run(events[..|events| - 1]), events[|events| - 1]);
      StepKeeps(Run(events[..|events| - 1]), events[|events| - 1]);
      GreetedOnlyByGreet(Run(events[..|events| - 1]), events[|events| - 1]);
    }
  }

  lemma GreetedOnlyByGreet(s: Socket, e: Event)
    ensures Step(s, e).greeted == (s.greeted || e.Greet?)
  {
    DetachAllFrame(s, s.attached);
  }

  lemma {:induction false} DetachAllFrame(s: Socket, ids: nat)
    ensures DetachedAll(s, ids).greeted == s.greeted
  {
    if ids > 0 {
      DetachAllFrame(s, ids - 1);
    }
  }

  /** After a single hello, however the suspended operations interleave with new messages, closing and
      disposal: at most one connection uses the socket, it is the socket's own or about to be, every
      cleanup ran at most once and exactly for the connections no longer registered, and every approval
      resolved at most once, at the latest when its connection was cleaned up. */
  lemma OneConnectionAtATime(events: seq<Event>)
    requires Greetings(events) <= 1
    ensures var s := Run(events);
            && (forall c <- s.registered, d <- s.registered :: c == d)
            && NoOrphan(s)
            && (forall j, k | 0 <= j < k < |s.cleaned| :: s.cleaned[j] != s.cleaned[k])
            && (forall c: nat | c < s.attached :: c in s.cleaned <==> c !in s.registered)
            && (forall a <- s.approvals :: a.resolutions <= 1 && (a.resolutions == 0 ==> a.owner in s.registered))
  {
    RunKeeps(events);
  }

  /** Once nothing is suspended the registered connection, if any, is the one the socket talks to. */
  lemma QuietSocket(events: seq<Event>)
    requires Greetings(events) <= 1
    requires forall t <- Run(events).tasks :: t.point == Done
    ensures forall c <- Run(events).registered :: Run(events).conn == Some(c)
  {
    RunKeeps(events);
  }

  /** Nothing refuses a second hello: with two, one socket comes to have two registered connections. */
  lemma SecondHelloRegistersTwo()
    ensures var events := [Greet(true), Greet(true), Resume(0, true), Resume(1, true)];
            Greetings(events) == 2 && Run(events).registered == {0, 1}
  {
    var events := [Greet(true), Greet(true), Resume(0, true), Resume(1, true)];
    var e1, e2, e3 := events[..1], events[..2], events[..3];
    assert e1[..0] == [] && e2[..1] == e1 && e3[..2] == e2 && events[..3] == e3;
    assert Run(e1) == Step(FRESH, Greet(true));
    assert Run(e2) == Step(Run(e1), Greet(true));
    assert Run(e3) == Step(Run(e2), Resume(0, true));
    assert Run(events) == Step(Run(e3), Resume(1, true));
    assert Greetings(e1) == 1 && Greetings(e2) == 2 && Greetings(e3) == 2;
  }

  // ---- exactly when connections crowd a socket, or outlive it ----

  /** A hello that found or created its session attaches here, whatever else is registered. */
  predicate HelloAttaches(s: Socket, e: Event) {
    e.Resume? && e.ok && e.task < |s.tasks| && Greeting(s.tasks[e.task].point)
  }

  predicate Crowds(s: Socket, e: Event) { HelloAttaches(s, e) && s.registered != {} }

  ghost predicate Below(s: Socket) { forall c <- s.registered :: c < s.attached }

  lemma {:induction false} DetachedAllRegistered(s: Socket, ids: nat)
    ensures DetachedAll(s, ids).registered <= s.registered && DetachedAll(s, ids).attached == s.attached
  {
    if ids > 0 {
      DetachedAllRegistered(s, ids - 1);
    }
  }

  lemma RegisteredAfter(s: Socket, e: Event)
    requires Below(s)
    ensures var t := Step(s, e);
            && Below(t)
            && (HelloAttaches(s, e) ==> t.registered == s.registered + {s.attached})
            && (!HelloAttaches(s, e) && OneRegistered(s) ==> OneRegistered(t))
            && (!HelloAttaches(s, e) && s.registered == {} ==> t.registered == {})
  {
    match e
    case Resume(i, ok) => if i < |s.tasks| { RegisteredContinuing(s, i, ok); }
    case Dispose => DetachedAllRegistered(s, s.attached);
    case _ =>
  }

  lemma RegisteredContinuing(s: Socket, i: nat, ok: bool)
    requires Below(s) && i < |s.tasks|
    ensures var (t, e) := (Continued(s, i, ok), Resume(i, ok));
            && Below(t)
            && (HelloAttaches(s, e) ==> t.registered == s.registered + {s.attached})
            && (!HelloAttaches(s, e) && OneRegistered(s) ==> OneRegistered(t))
            && (!HelloAttaches(s, e) && s.registered == {} ==> t.registered == {})
  {
  }

  lemma {:induction false} AlwaysBelow(events: seq<Event>)
    ensures Below(Run(events))
  {
    if events != [] {
      AlwaysBelow(events[..|events| - 1]);
      RegisteredAfter(Run(events[..|events| - 1]), events[|events| - 1]);
    }
  }

  lemma CrowdingStep(s: Socket, e: Event)
    requires Below(s) && OneRegistered(s)
    ensures OneRegistered(Step(s, e)) <==> !Crowds(s, e)
  {
    RegisteredAfter(s, e);
    if Crowds(s, e) {
      var c :| c in s.registered;
      assert c in Step(s, e).registered && s.attached in Step(s, e).registered;
    }
  }

  /** After every prefix of the run. */
  ghost predicate AlwaysOneRegistered(events: seq<Event>) {
    OneRegistered(Run(events)) && (events == [] || AlwaysOneRegistered(events[..|events| - 1]))
  }

  predicate NeverCrowds(events: seq<Event>) {
    events == [] ||
    (NeverCrowds(events[..|events| - 1]) && !Crowds(Run(events[..|events| - 1]), events[|events| - 1]))
  }

  /** However many hellos there are: at most one connection is registered throughout a run if and only if no
      hello attaches while another connection is registered. A further hello after a close is harmless. */
  lemma {:induction false} OneRegisteredExactly(events: seq<Event>)
    ensures AlwaysOneRegistered(events) <==> NeverCrowds(events)
  {
    if events != [] {
      var before, e := events[..|events| - 1], events[|events| - 1];
      OneRegisteredExactly(before);
      AlwaysBelow(before);
      assert AlwaysOneRegistered(before) ==> OneRegistered(Run(before));
      if OneRegistered(Run(before)) {
        CrowdingStep(Run(before), e);
      }
    }
  }

  /** A close leaves nothing registered, unless a registered connection waited to be assigned before; */
  lemma CloseEmpties(events: seq<Event>)
    requires Greetings(events) <= 1
    ensures var s := Run(events);
            Run(events + [Close]).registered == {} <==>
            forall i | 0 <= i < |s.tasks| && s.tasks[i].point.Swapped? :: s.tasks[i].point.next !in s.registered
  {
    assert (events + [Close])[..|events|] == events;
    RunKeeps(events);
    CloseFrom(Run(events));
  }

  lemma CloseFrom(s: Socket)
    requires Inv(s)
    ensures Step(s, Close).registered == {} <==>
            forall i | 0 <= i < |s.tasks| && s.tasks[i].point.Swapped? :: s.tasks[i].point.next !in s.registered
  {
    var t := Step(s, Close);
    assert t.registered == if s.conn.Some? then s.registered - {s.conn.value} else s.registered;
    if t.registered != {} {
      var c :| c in t.registered;
      assert c in s.registered && s.conn != Some(c);
      var i :| 0 <= i < |s.tasks| && s.tasks[i].point == Swapped(c);
      assert s.tasks[i].point.next in s.registered;
    }
  }

  ghost predicate StaysEmpty(events: seq<Event>, later: seq<Event>) {
    && Run(events + later).registered == {}
    && (later == [] || StaysEmpty(events, later[..|later| - 1]))
  }

  predicate NoHelloAttaches(events: seq<Event>, later: seq<Event>) {
    later == [] ||
    (NoHelloAttaches(events, later[..|later| - 1])
     && !HelloAttaches(Run(events + later[..|later| - 1]), later[|later| - 1]))
  }

  /** and nothing ever is registered again if and only if no suspended hello attaches afterwards. */
  lemma {:induction false} EmptyStaysEmpty(events: seq<Event>, later: seq<Event>)
    requires Run(events).registered == {}
    ensures StaysEmpty(events, later) <==> NoHelloAttaches(events, later)
  {
    if later == [] {
      assert events + later == events;
    } else {
      var before, e := later[..|later| - 1], later[|later| - 1];
      EmptyStaysEmpty(events, before);
      assert (events + later)[..|events + later| - 1] == events + before;
      assert StaysEmpty(events, before) ==> Run(events + before).registered == {};
      if Run(events + before).registered == {} {
        RegisteredAfter(Run(events + before), e);
      }
    }
  }

  /** A hello still suspended when its socket closes attaches afterwards, and stays. */
  lemma HelloOutlivesItsSocket()
    ensures Run([Greet(true), Close, Resume(0, true)]).registered == {0}
  {
    var events := [Greet(true), Close, Resume(0, true)];
    var e1, e2 := events[..1], events[..2];
    assert e1[..0] == [] && e2[..1] == e1 && events[..2] == e2;
    assert Run(e1) == Step(FRESH, Greet(true));
    assert Run(e2) == Step(Run(e1), Close);
    assert Run(events) == Step(Run(e2), Resume(0, true));
  }

  // ---- the same steps on the socket's own variables ----

  class ClientSocket {
    var conn: Option<nat>
    var registered: set<nat>
    var attached: nat
    var greeted: bool
    var tasks: seq<Task>
    var cleaned: seq<nat>
    var approvals: seq<Approval>

    ghost function State(): Socket
      reads this
    {
      Socket(conn, registered, attached, greeted, tasks, cleaned, approvals)
    }

    constructor ()
      ensures State() == FRESH
    {
      conn, registered, attached, greeted, tasks, cleaned, approvals := None, {}, 0, false, [], [], [];
    }

    /** Unregisters; then the cleanup, and `done` of everything still in the connection's map. */
    method Detach(c: nat) returns (removed: bool)
      modifies this
      ensures State() == Detached(old(State()), c) && removed == (c in old(registered))
    {
      if c !in registered {
        return false;
      }
      registered := registered - {c};
      cleaned := cleaned + [c];
      CancelPending(c);
      return true;
    }

    method CancelPending(c: nat)
      modifies `approvals
      ensures approvals == SettledOf(old(approvals), c)
    {
      var k := 0;
      while k < |approvals|
        invariant k <= |approvals| == |old(approvals)|
        invariant forall j | 0 <= j < k :: approvals[j] == SettledOf(old(approvals), c)[j]
        invariant forall j | k <= j < |approvals| :: approvals[j] == old(approvals)[j]
      {
        if approvals[k].owner == c && approvals[k].pending {
          approvals := approvals[k := approvals[k].Settle().(pending := false)];
        }
        k := k + 1;
      }
    }

    method Attach() returns (c: nat)
      modifies `registered, `attached
      ensures State() == Attached(old(State())) && c == old(attached)
    {
      c := attached;
      registered := registered + {c};
      attached := attached + 1;
    }

    method Move(i: nat, point: Point)
      requires i < |tasks|
      modifies `tasks
      ensures State() == At(old(State()), i, point)
    {
      tasks := tasks[i := tasks[i].(point := point)];
    }

    /** An operation goes on from its await. */
    method Continue(i: nat, ok: bool)
      requires i < |tasks|
      modifies this
      ensures State() == Continued(old(State()), i, ok)
    {
      var t := tasks[i];
      match t.point
      case Done =>
      case HelloResuming =>
        if ok {
          var c := Attach();
          conn := Some(c);
        }
        Move(i, if ok then Done else HelloCreating);
      case HelloCreating =>
        var next := attached;
        if ok {
          next := Attach();
        }
        Move(i, if ok then Swapped(next) else Done);
      case WaitingModels =>
        Move(i, if t.current.Some? && conn == t.current && t.current.value in registered then Creating else Done);
      case Creating =>
        if ok && t.current.Some? && t.current.value in registered {
          var _ := Detach(t.current.value);
          var next := Attach();
          Move(i, Swapped(next));
        } else {
          Move(i, Done);
        }
      case Swapped(next) =>
        if t.current == None || conn == t.current || t.current.value !in registered {
          conn := Some(next);
        }
        Move(i, Done);
      case Resuming =>
        if ok && t.current.Some? && conn == t.current && t.current.value in registered {
          var _ := Detach(t.current.value);
          var next := Attach();
          conn := Some(next);
        }
        Move(i, Done);
    }

    method Dispose()
      modifies this
      ensures State() == DetachedAll(old(State()), old(attached))
    {
      var c := 0;
      while c < attached
        invariant c <= attached == old(attached)
        invariant State() == DetachedAll(old(State()), c)
      {
        var _ := Detach(c);
        c := c + 1;
      }
    }

    /** Whatever happens to the socket happens as `Step` says. */
    method Handle(e: Event)
      modifies this
      ensures State() == Step(old(State()), e)
    {
      match e
      case Greet(resume) =>
        greeted, tasks := true, tasks + [Task(Hello, None, if resume then HelloResuming else HelloCreating)];
      case Refuse =>
      case Receive(kind) =>
        if conn.Some? && kind != Hello {
          tasks := tasks + [Task(kind, conn, FirstPoint(kind))];
        }
      case Resume(i, ok) =>
        if i < |tasks| {
          Continue(i, ok);
        }
      case Close =>
        if conn.Some? {
          var _ := Detach(conn.value);
        }
        conn := None;
      case Dispose =>
        Dispose();
      case Request(owner) =>
        if owner in registered {
          approvals := approvals + [Approval(owner, true, false, 0)];
        }
      case Answer(k) =>
        if k < |approvals| && conn == Some(approvals[k].owner) && approvals[k].pending {
          approvals := approvals[k := approvals[k].Settle()];
        }
      case Abort(k) =>
        if k < |approvals| {
          approvals := approvals[k := approvals[k].Settle()];
        }
    }
  }
}
