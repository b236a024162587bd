/** What every run of a socket's commands keeps: their order, what they say, and to whom. */
module CommandRuns {
  import opened Basics
  import opened CommandChain

  // ---- the order of operations ----

  predicate On(ops: seq<Op>, i: nat, lane: Lane)
    requires i < |ops|
  {
    ops[i].Chained() && ops[i].Lane() == lane
  }

  /** Chained operation `i` waits for the one before it on its lane, or none before it is unfinished. */
  ghost predicate Linked(ops: seq<Op>, i: nat)
    requires i < |ops|
  {
    var lane := ops[i].Lane();
    match ops[i].after
    case None => forall k | 0 <= k < i && On(ops, k, lane) :: ops[k].point.Finished?
    case Some(j) => j < i && On(ops, j, lane) && forall k | j < k < i :: !On(ops, k, lane)
  }

  ghost predicate TailIsLast(ops: seq<Op>, tails: map<Lane, nat>, lane: Lane) {
    if lane in tails then
      && tails[lane] < |ops| && On(ops, tails[lane], lane)
      && forall k | tails[lane] < k < |ops| :: !On(ops, k, lane)
    else
      forall k | 0 <= k < |ops| && On(ops, k, lane) :: ops[k].point.Finished?
  }

  /** An operation has begun only if every earlier one of its lane has finished. */
  ghost predicate InOrder(ops: seq<Op>, i: nat)
    requires i < |ops|
  {
    ops[i].Queued() && !ops[i].point.Waiting? ==>
      forall k | 0 <= k < i && On(ops, k, ops[i].Lane()) :: ops[k].point.Finished?
  }

  ghost predicate Chain(ops: seq<Op>, tails: map<Lane, nat>) {
    && (forall i | 0 <= i < |ops| && ops[i].Queued() :: Linked(ops, i))
    && (forall lane :: TailIsLast(ops, tails, lane))
    && (forall i | 0 <= i < |ops| :: InOrder(ops, i))
  }

  lemma ArriveKeepsChain(s: Socket, kind: Kind)
    requires Chain(s.ops, s.tails)
    ensures Chain(Arrived(s, kind).ops, Arrived(s, kind).tails)
  {
    var t := Arrived(s, kind);
    var n := |s.ops|;
    assert forall k | 0 <= k < n :: t.ops[k] == s.ops[k];
    assert forall k, lane | 0 <= k < n :: On(t.ops, k, lane) == On(s.ops, k, lane);
    assert TailIsLast(s.ops, s.tails, t.ops[n].Lane());
    forall i | 0 <= i <= n && t.ops[i].Queued() ensures Linked(t.ops, i) {
      if i < n {
        assert Linked(s.ops, i);
      }
    }
    forall lane ensures TailIsLast(t.ops, t.tails, lane) {
      assert TailIsLast(s.ops, s.tails, lane);
    }
    forall i | 0 <= i <= n ensures InOrder(t.ops, i) {
      if i < n {
        assert InOrder(s.ops, i);
      }
    }
  }

  /** Operation `i` moves on, to a point that is not `Waiting`, and stays what it is. */
  ghost predicate MovesOn(ops: seq<Op>, now: seq<Op>, i: nat) {
    && |now| == |ops| && i < |ops|
    && (forall k | 0 <= k < |ops| && k != i :: now[k] == ops[k])
    && now[i].kind == ops[i].kind && now[i].conn == ops[i].conn && now[i].after == ops[i].after
    && !now[i].point.Waiting? && !ops[i].point.Finished?
  }

  lemma AdvancedMovesOn(s: Socket, i: nat, a: Answer)
    requires i < |s.ops| && MayRun(s.ops, s.ops[i])
    ensures MovesOn(s.ops, Advanced(s, i, a).ops, i)
    ensures Advanced(s, i, a).tails == s.tails
  {
  }

  lemma MovingKeepsChain(ops: seq<Op>, now: seq<Op>, tails: map<Lane, nat>, i: nat)
    requires Chain(ops, tails) && MovesOn(ops, now, i) && MayRun(ops, ops[i])
    ensures Chain(now, tails)
  {
    assert forall k, lane | 0 <= k < |ops| :: On(now, k, lane) == On(ops, k, lane);
    forall k | 0 <= k < |now| && now[k].Queued() ensures Linked(now, k) {
      assert Linked(ops, k);
    }
    forall lane ensures TailIsLast(now, tails, lane) {
      assert TailIsLast(ops, tails, lane);
    }
    forall k | 0 <= k < |now| ensures InOrder(now, k) {
      assert InOrder(ops, k);
      if k == i && ops[i].Queued() {
        BeginsInOrder(ops, tails, i);
      }
    }
  }

  lemma BeginsInOrder(ops: seq<Op>, tails: map<Lane, nat>, i: nat)
    requires Chain(ops, tails) && i < |ops| && MayRun(ops, ops[i]) && ops[i].Queued()
    ensures forall k | 0 <= k < i && On(ops, k, ops[i].Lane()) :: ops[k].point.Finished?
  {
    assert Linked(ops, i) && InOrder(ops, i);
    if ops[i].point.Waiting? && ops[i].after.Some? {
      assert InOrder(ops, ops[i].after.value);
    }
  }

  lemma ClearKeepsChain(s: Socket, i: nat)
    requires Chain(s.ops, s.tails)
    ensures Chain(Step(s, ClearTail(i)).ops, Step(s, ClearTail(i)).tails)
  {
    var t := Step(s, ClearTail(i));
    if t != s {
      assert TailIsLast(s.ops, s.tails, Models) && InOrder(s.ops, i);
      forall lane ensures TailIsLast(t.ops, t.tails, lane) {
        assert TailIsLast(s.ops, s.tails, lane);
      }
    }
  }

  lemma {:induction false} RunKeepsChain(events: seq<Event>)
    ensures Chain(Run(events).ops, Run(events).tails)
  {
    if events != [] {
      RunKeepsChain(events[..|events| - 1]);
      StepKeepsChain(Run(events[..|events| - 1]), events[|events| - 1]);
    }
  }

  lemma StepKeepsChain(s: Socket, e: Event)
    requires Chain(s.ops, s.tails)
    ensures Chain(Step(s, e).ops, Step(s, e).tails)
  {
    hide Chain, Arrived, Advanced;
    match e
    case Arrive(kind) => ArriveKeepsChain(s, kind);
    case Advance(i, a) =>
      if i < |s.ops| && MayRun(s.ops, s.ops[i]) {
        AdvancedMovesOn(s, i, a);
        MovingKeepsChain(s.ops, Advanced(s, i, a).ops, s.tails, i);
      }
    case ClearTail(i) => ClearKeepsChain(s, i);
    case _ =>
  }

  predicate SameLane(ops: seq<Op>, i: nat, j: nat) {
    i < |ops| && j < |ops| && ops[i].Chained() && ops[j].Chained() && ops[i].Lane() == ops[j].Lane()
  }

  predicate Active(op: Op) { op.Chained() && !op.point.Waiting? && !op.point.Finished? }

  /** Operations of one lane run one at a time, in arrival order, and direct commands after the model operations
      that came before them; an absent tail means none is unfinished. */
  lemma OneAtATimeInOrder(events: seq<Event>)
    ensures var s := Run(events);
            && (forall i, j | 0 <= i < j < |s.ops| && SameLane(s.ops, i, j) && !s.ops[j].point.Waiting? ::
                  s.ops[i].point.Finished?)
            && (forall i, j | 0 <= i < j < |s.ops| && On(s.ops, i, Models) && s.ops[j].kind.Direct? ::
                  !s.ops[j].point.Waiting? ==> s.ops[i].point.Finished?)
            && (forall i, j | 0 <= i < |s.ops| && 0 <= j < |s.ops| ::
                  SameLane(s.ops, i, j) && Active(s.ops[i]) && Active(s.ops[j]) ==> i == j)
            && (forall i, lane | 0 <= i < |s.ops| && On(s.ops, i, lane) && lane !in s.tails ::
                  s.ops[i].point.Finished?)
  {
    RunKeepsChain(events);
    hide Run, Step;
    var s := Run(events);
    assert Chain(s.ops, s.tails);
    forall i, j | 0 <= i < j < |s.ops| && On(s.ops, i, Models) && s.ops[j].kind.Direct?
      ensures !s.ops[j].point.Waiting? ==> s.ops[i].point.Finished?
    {
      assert InOrder(s.ops, j) && On(s.ops, i, s.ops[j].Lane());
    }
    forall i, j | 0 <= i < j < |s.ops| && SameLane(s.ops, i, j) && !s.ops[j].point.Waiting?
      ensures s.ops[i].point.Finished?
    {
      assert InOrder(s.ops, j) && On(s.ops, i, s.ops[j].Lane());
    }
    forall i, lane | 0 <= i < |s.ops| && On(s.ops, i, lane) && lane !in s.tails ensures s.ops[i].point.Finished? {
      assert TailIsLast(s.ops, s.tails, lane);
    }
  }

  // ---- to whom anything is said ----

  function AssigneeAfter(before: Option<nat>, x: Entry): Option<nat> {
    if x.Assigned? then x.next else before
  }

  function LiveAfter(before: set<nat>, x: Entry): set<nat> {
    match x
    case Joined(c) => before + {c}
    case Gone(c) => before - {c}
    case _ => before
  }

  /** The socket's connection, and the registered ones, as the trace tells. */
  function Assignee(trace: seq<Entry>): Option<nat> {
    if trace == [] then None else AssigneeAfter(Assignee(trace[..|trace| - 1]), trace[|trace| - 1])
  }

  function Live(trace: seq<Entry>): set<nat> {
    if trace == [] then {} else LiveAfter(Live(trace[..|trace| - 1]), trace[|trace| - 1])
  }

  lemma TraceSnoc(trace: seq<Entry>, x: Entry)
    ensures Assignee(trace + [x]) == AssigneeAfter(Assignee(trace), x)
    ensures Live(trace + [x]) == LiveAfter(Live(trace), x)
  {
    assert (trace + [x])[..|trace|] == trace;
  }

  lemma {:induction false} SpeakingMovesNobody(trace: seq<Entry>, said: seq<Entry>)
    requires forall x <- said :: x.Sent?
    ensures Assignee(trace + said) == Assignee(trace) && Live(trace + said) == Live(trace)
  {
    hide Assignee, Live;
    if said == [] {
      assert trace + said == trace;
    } else {
      var n := |said| - 1;
      assert said[n] in said && forall x <- said[..n] :: x in said;
      SpeakingMovesNobody(trace, said[..n]);
      TraceSnoc(trace + said[..n], said[n]);
      assert trace + said == trace + said[..n] + [said[n]];
    }
  }

  /** Prompts act and finish, and only they act. */
  predicate PointFits(op: Op) {
    && (op.kind.Prompt? ==> op.point.Waiting? || op.point.Acting? || op.point.Finished?)
    && (op.point.Acting? ==> op.kind.Prompt?)
  }

  /** Every frame goes to a registered connection, and all but queue frames to the socket's own. */
  ghost predicate SaidRightly(trace: seq<Entry>, k: nat)
    requires k < |trace|
  {
    trace[k].Sent? ==>
      && trace[k].conn in Live(trace[..k])
      && (trace[k].frame != QueueFrame ==> Assignee(trace[..k]) == Some(trace[k].conn))
  }

  ghost predicate Spoken(trace: seq<Entry>) { forall k | 0 <= k < |trace| :: SaidRightly(trace, k) }

  /** The trace tells who is connected, and nobody else is spoken to. */
  ghost predicate Told(s: Socket) {
    && Assignee(s.trace) == s.conn && Live(s.trace) == s.registered && Spoken(s.trace)
    && (forall i | 0 <= i < |s.ops| :: PointFits(s.ops[i]))
  }

  lemma SpokenOn(trace: seq<Entry>, more: seq<Entry>)
    requires Spoken(trace)
    requires forall k | 0 <= k < |more| && more[k].Sent? ::
               && more[k].conn in Live(trace + more[..k])
               && (more[k].frame != QueueFrame ==> Assignee(trace + more[..k]) == Some(more[k].conn))
    ensures Spoken(trace + more)
  {
    hide Assignee, Live;
    var all := trace + more;
    forall k | 0 <= k < |all| ensures SaidRightly(all, k) {
      if k < |trace| {
        assert SaidRightly(trace, k) && all[..k] == trace[..k];
      } else {
        assert all[..k] == trace + more[..k - |trace|] && all[k] == more[k - |trace|];
      }
    }
  }

  lemma {:induction false} EntriesAre(op: nat, conn: nat, frames: seq<Frame>)
    ensures |Entries(op, conn, frames)| == |frames|
    ensures forall e <- Entries(op, conn, frames) :: e.Sent? && e.op == op && e.conn == conn && e.frame in frames
  {
    if frames != [] {
      EntriesAre(op, conn, frames[1..]);
    }
  }

  /** What operation `i` adds to the trace when it goes on. */
  function Utterance(s: Socket, i: nat, a: Answer): seq<Entry>
    requires i < |s.ops|
  {
    var op := s.ops[i];
    if op.conn == None then [] else Entries(i, op.conn.value, Segment(op.kind, op.point, s.Passes(op), a).0)
  }

  lemma UtteranceIs(s: Socket, i: nat, a: Answer)
    requires i < |s.ops|
    ensures var said := Utterance(s, i, a);
            && Advanced(s, i, a).trace == s.trace + said
            && (forall x <- said :: x.Sent? && x.op == i && s.ops[i].conn == Some(x.conn))
            && (forall x <- said :: x.frame in Segment(s.ops[i].kind, s.ops[i].point, s.Passes(s.ops[i]), a).0)
            && (said != [] ==> s.Passes(s.ops[i]))
  {
    var op := s.ops[i];
    StaleIsSilent(op.kind, op.point, a);
    if op.conn.Some? {
      EntriesAre(i, op.conn.value, Segment(op.kind, op.point, s.Passes(op), a).0);
    }
  }

  /** Queue frames are the frames of prompts. */
  lemma QueueFramesAreOfPrompts(op: Op, current: bool, a: Answer)
    requires PointFits(op)
    ensures var (frames, point) := Segment(op.kind, op.point, current, a);
            && (forall f <- frames :: f == QueueFrame <==> op.kind.Prompt?)
            && PointFits(op.(point := point))
  {
  }

  lemma AdvanceIsTold(s: Socket, i: nat, a: Answer)
    requires Told(s) && i < |s.ops|
    ensures Told(Advanced(s, i, a))
  {
    var said := Utterance(s, i, a);
    UtteranceIs(s, i, a);
    QueueFramesAreOfPrompts(s.ops[i], s.Passes(s.ops[i]), a);
    hide Segment, Utterance;
    SpeakingMovesNobody(s.trace, said);
    forall k | 0 <= k < |said|
      ensures said[k].conn in Live(s.trace + said[..k])
      ensures said[k].frame != QueueFrame ==> Assignee(s.trace + said[..k]) == Some(said[k].conn)
    {
      SpeakingMovesNobody(s.trace, said[..k]);
      assert said[k] in said;
    }
    hide Assignee, Live;
    SpokenOn(s.trace, said);
    assert forall k | 0 <= k < |s.ops| && k != i :: Advanced(s, i, a).ops[k] == s.ops[k];
  }

  lemma OneEntryIsTold(s: Socket, x: Entry)
    requires Told(s) && !x.Sent?
    ensures var t := s.(trace := s.trace + [x]);
            && Spoken(t.trace)
            && Assignee(t.trace) == AssigneeAfter(s.conn, x) && Live(t.trace) == LiveAfter(s.registered, x)
  {
    TraceSnoc(s.trace, x);
    SpokenOn(s.trace, [x]);
  }

  lemma StepIsTold(s: Socket, e: Event)
    requires Told(s)
    ensures Told(Step(s, e))
  {
    hide Assignee, Live, Spoken, Advanced;
    match e
    case Become(next) => OneEntryIsTold(s, Assigned(next));
    case Register(c) => OneEntryIsTold(s, Joined(c));
    case Unregister(c) => OneEntryIsTold(s, Gone(c));
    case Arrive(kind) => OneEntryIsTold(s, BarePong);
    case Advance(i, a) => if i < |s.ops| && MayRun(s.ops, s.ops[i]) { AdvanceIsTold(s, i, a); }
    case ClearTail(i) =>
  }

  /** No frame leaves for a connection that is not registered at that moment, and none but a prompt's queue frame
      for one that is not the socket's own. */
  lemma {:induction false} OnlyTheCurrentIsTold(events: seq<Event>)
    ensures Told(Run(events))
  {
    if events != [] {
      OnlyTheCurrentIsTold(events[..|events| - 1]);
      StepIsTold(Run(events[..|events| - 1]), events[|events| - 1]);
    }
  }

  /** A connection that is gone never comes back. */
  ghost predicate GoneForGood(s: Socket) {
    && s.registered !! s.gone
    && (forall k | 0 <= k < |s.trace| && s.trace[k].Gone? :: s.trace[k].conn in s.gone)
    && (forall i, j | 0 <= i < j < |s.trace| && s.trace[i].Gone? && s.trace[j].Sent? ::
          s.trace[i].conn != s.trace[j].conn)
  }

  lemma StepKeepsGone(s: Socket, e: Event)
    requires GoneForGood(s)
    ensures GoneForGood(Step(s, e))
  {
    if e.Advance? && e.op < |s.ops| && MayRun(s.ops, s.ops[e.op]) {
      AdvanceKeepsGone(s, e.op, e.answer);
    }
  }

  lemma AdvanceKeepsGone(s: Socket, i: nat, a: Answer)
    requires GoneForGood(s) && i < |s.ops|
    ensures GoneForGood(Advanced(s, i, a))
  {
    UtteranceIs(s, i, a);
    hide Utterance, Segment;
    var said := Utterance(s, i, a);
    var trace := s.trace + said;
    assert Advanced(s, i, a).trace == trace;
    assert forall k | |s.trace| <= k < |trace| :: trace[k] in said;
  }

  /** No frame leaves for a connection once it has been detached. */
  lemma {:induction false} NothingAfterDetach(events: seq<Event>)
    ensures GoneForGood(Run(events))
  {
    if events != [] {
      NothingAfterDetach(events[..|events| - 1]);
      StepKeepsGone(Run(events[..|events| - 1]), events[|events| - 1]);
    }
  }

  // ---- queue frames that go astray ----

  /** Whom an operation captured, the socket was assigned before. */
  ghost predicate Captured(s: Socket) {
    && (forall i | 0 <= i < |s.ops| && s.ops[i].conn.Some? :: Assigned(s.ops[i].conn) in s.trace)
    && (forall k | 0 <= k < |s.trace| && s.trace[k].Sent? :: Assigned(Some(s.trace[k].conn)) in s.trace[..k])
  }

  lemma {:induction false} AssigneeWasAssigned(trace: seq<Entry>)
    requires Assignee(trace).Some?
    ensures Assigned(Assignee(trace)) in trace
  {
    if !trace[|trace| - 1].Assigned? {
      AssigneeWasAssigned(trace[..|trace| - 1]);
    }
  }

  lemma AdvanceKeepsCaptured(s: Socket, i: nat, a: Answer)
    requires Captured(s) && i < |s.ops|
    ensures Captured(Advanced(s, i, a))
  {
    UtteranceIs(s, i, a);
    hide Utterance, Segment;
    var said := Utterance(s, i, a);
    var t := Advanced(s, i, a);
    assert forall k | 0 <= k < |s.trace| :: t.trace[..k] == s.trace[..k];
    assert forall k | |s.trace| <= k < |t.trace| :: t.trace[k] in said && s.trace <= t.trace[..k];
  }

  lemma OneEntryKeepsCaptured(s: Socket, x: Entry)
    requires Captured(s) && !x.Sent?
    ensures Captured(s.(trace := s.trace + [x]))
  {
    var trace := s.trace + [x];
    assert forall k | 0 <= k < |s.trace| :: trace[..k] == s.trace[..k];
  }

  lemma StepKeepsCaptured(s: Socket, e: Event)
    requires Captured(s) && Assignee(s.trace) == s.conn
    ensures Captured(Step(s, e))
  {
    match e
    case Become(next) => OneEntryKeepsCaptured(s, Assigned(next));
    case Register(c) => OneEntryKeepsCaptured(s, Joined(c));
    case Unregister(c) => OneEntryKeepsCaptured(s, Gone(c));
    case Arrive(kind) =>
      OneEntryKeepsCaptured(s, BarePong);
      if s.conn.Some? { AssigneeWasAssigned(s.trace); }
    case Advance(i, a) => if i < |s.ops| && MayRun(s.ops, s.ops[i]) { AdvanceKeepsCaptured(s, i, a); }
    case ClearTail(i) =>
  }

  lemma {:induction false} RunKeepsCaptured(events: seq<Event>)
    ensures Captured(Run(events))
  {
    if events != [] {
      RunKeepsCaptured(events[..|events| - 1]);
      OnlyTheCurrentIsTold(events[..|events| - 1]);
      StepKeepsCaptured(Run(events[..|events| - 1]), events[|events| - 1]);
    }
  }

  /** The socket was assigned `c` and then, for good, something else, while `c` stayed registered. */
  ghost predicate LeftBehind(trace: seq<Entry>, c: nat) {
    exists i, j | 0 <= i < j < |trace| :: trace[i] == Assigned(Some(c)) && LeftAt(trace, c, i, j)
  }

  ghost predicate LeftAt(trace: seq<Entry>, c: nat, i: nat, j: nat)
    requires i < j < |trace|
  {
    && trace[j].Assigned? && trace[j].next != Some(c)
    && (forall m | j < m < |trace| :: trace[m] != Assigned(Some(c)))
    && (forall m | i < m < |trace| :: trace[m] != Gone(c))
  }

  lemma {:induction false} LastAssignment(trace: seq<Entry>, i: nat) returns (last: nat)
    requires i < |trace| && trace[i].Assigned?
    ensures i <= last < |trace| && trace[last].Assigned? && trace[last].next == Assignee(trace)
    ensures forall m | last < m < |trace| :: !trace[m].Assigned?
  {
    if trace[|trace| - 1].Assigned? {
      last := |trace| - 1;
    } else {
      last := LastAssignment(trace[..|trace| - 1], i);
    }
  }

  /** In every run, exactly when a frame goes to another connection than the socket's own: it is a queue frame,
      and the socket was reassigned while its connection stayed registered. */
  lemma AstrayExactly(events: seq<Event>, k: nat)
    requires k < |Run(events).trace| && Run(events).trace[k].Sent?
    ensures var x, before := Run(events).trace[k], Run(events).trace[..k];
            && (Assignee(before) != Some(x.conn) <==> LeftBehind(before, x.conn))
            && (Assignee(before) != Some(x.conn) ==> x.frame == QueueFrame)
  {
    OnlyTheCurrentIsTold(events);
    NothingAfterDetach(events);
    RunKeepsCaptured(events);
    hide Run;
    var trace := Run(events).trace;
    assert SaidRightly(trace, k);
    assert forall m | 0 <= m < k :: trace[m] != Gone(trace[k].conn);
    AstrayFrom(trace[..k], trace[k].conn);
  }

  lemma AstrayFrom(before: seq<Entry>, c: nat)
    requires Assigned(Some(c)) in before && forall m | 0 <= m < |before| :: before[m] != Gone(c)
    ensures Assignee(before) != Some(c) <==> LeftBehind(before, c)
  {
    var i :| 0 <= i < |before| && before[i] == Assigned(Some(c));
    var last := LastAssignment(before, i);
    hide Assignee;
    if before[last].next != Some(c) {
      assert i != last && LeftAt(before, c, i, last);
    }
  }

  /** The socket is only ever handed over: to a connection that was attached before, and from one that is no
      longer registered, or none. */
  predicate HandsOver(s: Socket, e: Event) {
    e.Become? && e.next != s.conn ==>
      && (e.next.Some? ==> e.next.value in s.registered + s.gone)
      && (s.conn.Some? ==> s.conn.value !in s.registered)
  }

  predicate AllHandedOver(events: seq<Event>) {
    events == [] ||
    (AllHandedOver(events[..|events| - 1]) && HandsOver(Run(events[..|events| - 1]), events[|events| - 1]))
  }

  /** Of the connections anything was captured from, only the socket's own is registered. */
  ghost predicate OnlyOwn(s: Socket) {
    && (s.conn.Some? ==> s.conn.value in s.registered + s.gone)
    && (forall i | 0 <= i < |s.ops| && s.ops[i].conn.Some? ::
          && s.ops[i].conn.value in s.registered + s.gone
          && (s.ops[i].conn.value in s.registered ==> s.conn == s.ops[i].conn))
    && (forall k | 0 <= k < |s.trace| && s.trace[k].Sent? :: Assignee(s.trace[..k]) == Some(s.trace[k].conn))
  }

  lemma AdvanceKeepsOwn(s: Socket, i: nat, a: Answer)
    requires OnlyOwn(s) && Assignee(s.trace) == s.conn && i < |s.ops|
    ensures OnlyOwn(Advanced(s, i, a))
  {
    UtteranceIs(s, i, a);
    hide Utterance, Segment, Assignee, Entries;
    SaidToOwn(s.trace, Utterance(s, i, a));
  }

  lemma SaidToOwn(trace: seq<Entry>, said: seq<Entry>)
    requires forall k | 0 <= k < |trace| && trace[k].Sent? :: Assignee(trace[..k]) == Some(trace[k].conn)
    requires forall x <- said :: x.Sent? && Assignee(trace) == Some(x.conn)
    ensures var t := trace + said;
            forall k | 0 <= k < |t| && t[k].Sent? :: Assignee(t[..k]) == Some(t[k].conn)
  {
    hide Assignee;
    var t := trace + said;
    forall k | 0 <= k < |t| && t[k].Sent? ensures Assignee(t[..k]) == Some(t[k].conn) {
      if k < |trace| {
        assert t[..k] == trace[..k];
      } else {
        assert t[k] in said && t[..k] == trace + said[..k - |trace|];
        SpeakingMovesNobody(trace, said[..k - |trace|]);
      }
    }
  }

  lemma StepKeepsOwn(s: Socket, e: Event)
    requires OnlyOwn(s) && GoneForGood(s) && Assignee(s.trace) == s.conn && HandsOver(s, e)
    ensures OnlyOwn(Step(s, e))
  {
    match e
    case Advance(i, a) => if i < |s.ops| && MayRun(s.ops, s.ops[i]) { AdvanceKeepsOwn(s, i, a); }
    case ClearTail(i) =>
    case Become(next) => OneEntryTellsOwn(s, Assigned(next));
    case Register(c) => OneEntryTellsOwn(s, Joined(c));
    case Unregister(c) => OneEntryTellsOwn(s, Gone(c));
    case Arrive(kind) => OneEntryTellsOwn(s, BarePong);
  }

  lemma OneEntryTellsOwn(s: Socket, x: Entry)
    requires OnlyOwn(s) && !x.Sent?
    ensures var trace := s.trace + [x];
            forall k | 0 <= k < |trace| && trace[k].Sent? :: Assignee(trace[..k]) == Some(trace[k].conn)
  {
    hide Assignee;
    assert forall k | 0 <= k < |s.trace| :: (s.trace + [x])[..k] == s.trace[..k];
  }

  /** While the socket is only handed over, no queue frame goes astray: every frame leaves for the socket's own
      connection. */
  lemma {:induction false} HandedOverNeverAstray(events: seq<Event>)
    requires AllHandedOver(events)
    ensures OnlyOwn(Run(events))
  {
    if events != [] {
      var before := events[..|events| - 1];
      HandedOverNeverAstray(before);
      OnlyTheCurrentIsTold(before);
      NothingAfterDetach(before);
      StepKeepsOwn(Run(before), events[|events| - 1]);
    }
  }

  /** A second connection takes the socket while a prompt of the first is acting: the first one's queue frame
      still leaves. */
  lemma AQueueFrameAstray(a: Answer)
    ensures var events := [Register(0), Become(Some(0)), Arrive(Prompt), Advance(0, a),
                           Register(1), Become(Some(1)), Advance(0, a)];
            Run(events).trace == [Joined(0), Assigned(Some(0)), Joined(1), Assigned(Some(1)), Sent(0, 0, QueueFrame)]
  {
    var es := [Register(0), Become(Some(0)), Arrive(Prompt), Advance(0, a),
               Register(1), Become(Some(1)), Advance(0, a)];
    PromptActs(es, a);
    var acting := Run(es[..4]);
    RunGoesOn(es, 4);
    RunGoesOn(es, 5);
    RunGoesOn(es, 6);
    assert es[..7] == es;
    hide Run;
    TakenOver(acting);
    hide Step;
    PromptSpeaks(Run(es[..6]), a);
  }

  lemma RunGoesOn(events: seq<Event>, k: nat)
    requires k < |events|
    ensures Run(events[..k + 1]) == Step(Run(events[..k]), events[k])
  {
    assert events[..k + 1][..k] == events[..k];
  }

  lemma PromptActs(events: seq<Event>, a: Answer)
    requires [Register(0), Become(Some(0)), Arrive(Prompt), Advance(0, a)] <= events
    ensures Run(events[..4]) ==
            Socket(Some(0), {0}, {}, [Op(Prompt, Some(0), None, Acting, [a], true)], map[Prompts(0) := 0],
                   [Joined(0), Assigned(Some(0))])
  {
    Attached(events);
    RunGoesOn(events, 2);
    RunGoesOn(events, 3);
    hide Run;
    PromptArrives(Run(events[..2]));
    PromptBegins(Run(events[..3]), a);
  }

  lemma Attached(events: seq<Event>)
    requires [Register(0), Become(Some(0))] <= events
    ensures Run(events[..2]) == Socket(Some(0), {0}, {}, [], map[], [Joined(0), Assigned(Some(0))])
  {
    RunGoesOn(events, 0);
    RunGoesOn(events, 1);
    assert Run(events[..0]) == FRESH;
  }

  lemma PromptArrives(s: Socket)
    requires s.conn == Some(0) && s.ops == [] && s.tails == map[]
    ensures Step(s, Arrive(Prompt)) ==
            s.(ops := [Op(Prompt, Some(0), None, Waiting, [], true)], tails := map[Prompts(0) := 0])
  {
  }

  lemma PromptBegins(s: Socket, a: Answer)
    requires s.conn == Some(0) && 0 in s.registered && s.ops == [Op(Prompt, Some(0), None, Waiting, [], true)]
    ensures Step(s, Advance(0, a)) == s.(ops := [Op(Prompt, Some(0), None, Acting, [a], true)])
  {
    assert s.trace + Entries(0, 0, []) == s.trace && [] + [a] == [a];
  }

  lemma TakenOver(s: Socket)
    requires s.gone == {} && s.registered == {0}
    ensures Step(Step(s, Register(1)), Become(Some(1))) ==
            s.(conn := Some(1), registered := {0, 1}, trace := s.trace + [Joined(1), Assigned(Some(1))])
  {
  }

  lemma PromptSpeaks(s: Socket, a: Answer)
    requires |s.ops| == 1 && s.ops[0].kind.Prompt? && s.ops[0].point.Acting? && s.ops[0].conn == Some(0)
    requires 0 in s.registered
    ensures Step(s, Advance(0, a)).trace == s.trace + [Sent(0, 0, QueueFrame)]
  {
    assert Entries(0, 0, [QueueFrame]) == [Sent(0, 0, QueueFrame)];
  }

  // ---- the order of what is said ----

  ghost predicate FramesInOrder(s: Socket) {
    && (forall k | 0 <= k < |s.trace| && s.trace[k].Sent? ::
          s.trace[k].op < |s.ops| && !s.ops[s.trace[k].op].point.Waiting?)
    && (forall i, j | 0 <= i < j < |s.trace| && s.trace[i].Sent? && s.trace[j].Sent? ::
          SameLane(s.ops, s.trace[i].op, s.trace[j].op) ==> s.trace[i].op <= s.trace[j].op)
  }

  lemma AdvanceKeepsOrder(s: Socket, i: nat, a: Answer)
    requires FramesInOrder(s) && Chain(s.ops, s.tails) && i < |s.ops| && MayRun(s.ops, s.ops[i])
    ensures FramesInOrder(Advanced(s, i, a))
  {
    var t, said := Advanced(s, i, a), Utterance(s, i, a);
    UtteranceIs(s, i, a);
    AdvancedMovesOn(s, i, a);
    hide Advanced, Utterance, Segment;
    assert forall k, j :: SameLane(t.ops, k, j) == SameLane(s.ops, k, j);
    assert forall k | |s.trace| <= k < |t.trace| :: t.trace[k] in said;
    forall k | 0 <= k < |s.trace| && s.trace[k].Sent? && SameLane(s.ops, s.trace[k].op, i)
      ensures s.trace[k].op <= i
    {
      NoneBegunAhead(s.ops, s.tails, i, s.trace[k].op);
    }
  }

  lemma NoneBegunAhead(ops: seq<Op>, tails: map<Lane, nat>, i: nat, j: nat)
    requires Chain(ops, tails) && SameLane(ops, i, j) && !ops[i].point.Finished? && !ops[j].point.Waiting?
    ensures j <= i
  {
    assert InOrder(ops, j) && On(ops, i, ops[j].Lane());
  }

  lemma StepKeepsOrder(s: Socket, e: Event)
    requires FramesInOrder(s) && Chain(s.ops, s.tails)
    ensures FramesInOrder(Step(s, e))
  {
    hide Chain;
    if e.Advance? && e.op < |s.ops| && MayRun(s.ops, s.ops[e.op]) {
      AdvanceKeepsOrder(s, e.op, e.answer);
    }
  }

  /** Frames of one lane leave in the order their operations arrived. */
  lemma {:induction false} FramesLeaveInOrder(events: seq<Event>)
    ensures FramesInOrder(Run(events))
  {
    if events != [] {
      FramesLeaveInOrder(events[..|events| - 1]);
      RunKeepsChain(events[..|events| - 1]);
      StepKeepsOrder(Run(events[..|events| - 1]), events[|events| - 1]);
    }
  }

  // ---- what an operation says ----

  /** The frames of one operation, in order. */
  function FramesOf(trace: seq<Entry>, i: nat): seq<Frame> {
    if trace == [] then []
    else
      var x := trace[|trace| - 1];
      FramesOf(trace[..|trace| - 1], i) + (if x.Sent? && x.op == i then [x.frame] else [])
  }

  /** What an operation says to these answers over a connection that stays current, and where it then stands. */
  function Played(kind: Kind, answers: seq<Answer>): (seq<Frame>, Point) {
    if answers == [] then ([], Waiting)
    else
      var n := |answers| - 1;
      var (said, point) := Played(kind, answers[..n]);
      var (frames, next) := Segment(kind, point, true, answers[n]);
      (said + frames, next)
  }

  lemma {:induction false} FramesOfAppend(trace: seq<Entry>, more: seq<Entry>, i: nat)
    ensures FramesOf(trace + more, i) == FramesOf(trace, i) + FramesOf(more, i)
  {
    if more == [] {
      assert trace + more == trace;
    } else {
      var n := |more| - 1;
      assert (trace + more)[..|trace| + n] == trace + more[..n];
      FramesOfAppend(trace, more[..n], i);
    }
  }

  lemma {:induction false} FramesOfEntries(op: nat, conn: nat, frames: seq<Frame>, i: nat)
    ensures FramesOf(Entries(op, conn, frames), i) == if i == op then frames else []
  {
    if frames != [] {
      hide FramesOf;
      FramesOfOne(op, conn, frames[0], i);
      FramesOfEntries(op, conn, frames[1..], i);
      FramesOfAppend([Sent(op, conn, frames[0])], Entries(op, conn, frames[1..]), i);
      assert [frames[0]] + frames[1..] == frames;
    }
  }

  lemma FramesOfOne(op: nat, conn: nat, frame: Frame, i: nat)
    ensures FramesOf([Sent(op, conn, frame)], i) == if i == op then [frame] else []
  {
    assert FramesOf([Sent(op, conn, frame)][..0], i) == [];
  }

  lemma {:induction false} NothingSaidYet(trace: seq<Entry>, i: nat)
    requires forall k | 0 <= k < |trace| && trace[k].Sent? :: trace[k].op < i
    ensures FramesOf(trace, i) == []
  {
    if trace != [] {
      NothingSaidYet(trace[..|trace| - 1], i);
    }
  }

  ghost predicate SaysAsPlayed(s: Socket, i: nat)
    requires i < |s.ops|
  {
    s.ops[i].steady ==> (FramesOf(s.trace, i), s.ops[i].point) == Played(s.ops[i].kind, s.ops[i].heard)
  }

  ghost predicate AllSayAsPlayed(s: Socket) { forall i | 0 <= i < |s.ops| :: SaysAsPlayed(s, i) }

  lemma AdvanceSays(s: Socket, i: nat, a: Answer, k: nat)
    requires i < |s.ops| && k < |s.ops| && SaysAsPlayed(s, k)
    ensures SaysAsPlayed(Advanced(s, i, a), k)
  {
    var t, op := Advanced(s, i, a), s.ops[i];
    var current := s.Passes(op);
    if op.conn.Some? {
      var frames := Segment(op.kind, op.point, current, a).0;
      FramesOfEntries(i, op.conn.value, frames, k);
      FramesOfAppend(s.trace, Entries(i, op.conn.value, frames), k);
    } else {
      assert t.trace == s.trace;
    }
    assert FramesOf(s.trace, k) + [] == FramesOf(s.trace, k);
    PlayedOneMore(op.kind, op.heard, a);
    if k == i && t.ops[i].steady {
      assert current && t.ops[i].heard == op.heard + [a] && t.ops[i].kind == op.kind;
    }
  }

  lemma PlayedOneMore(kind: Kind, answers: seq<Answer>, a: Answer)
    ensures var (said, point) := Played(kind, answers);
            var (frames, next) := Segment(kind, point, true, a);
            Played(kind, answers + [a]) == (said + frames, next)
  {
    assert (answers + [a])[..|answers|] == answers;
  }

  lemma OtherEntriesSayNothing(s: Socket, x: Entry, k: nat)
    requires k < |s.ops| && SaysAsPlayed(s, k) && !x.Sent?
    ensures FramesOf(s.trace + [x], k) == FramesOf(s.trace, k)
  {
    assert (s.trace + [x])[..|s.trace|] == s.trace;
  }

  lemma StepSays(s: Socket, e: Event, k: nat)
    requires k < |s.ops| && SaysAsPlayed(s, k)
    ensures SaysAsPlayed(Step(s, e), k)
  {
    match e
    case Become(next) => OtherEntriesSayNothing(s, Assigned(next), k);
    case Register(c) => OtherEntriesSayNothing(s, Joined(c), k);
    case Unregister(c) => OtherEntriesSayNothing(s, Gone(c), k);
    case Arrive(kind) => OtherEntriesSayNothing(s, BarePong, k);
    case Advance(i, a) => if i < |s.ops| && MayRun(s.ops, s.ops[i]) { AdvanceSays(s, i, a, k); }
    case ClearTail(i) =>
  }

  lemma NewSays(s: Socket, e: Event)
    requires FramesInOrder(s) && |Step(s, e).ops| > |s.ops|
    ensures |Step(s, e).ops| == |s.ops| + 1 && SaysAsPlayed(Step(s, e), |s.ops|)
  {
    NothingSaidYet(s.trace, |s.ops|);
  }

  /** In every run, what an operation has sent is what its answers make it say, for every operation that
      passed its staleness check at each of its segments. */
  lemma {:induction false} EachSaysItsAnswers(events: seq<Event>)
    ensures AllSayAsPlayed(Run(events))
  {
    if events != [] {
      EachSaysItsAnswers(events[..|events| - 1]);
      FramesLeaveInOrder(events[..|events| - 1]);
      StepSaysAll(Run(events[..|events| - 1]), events[|events| - 1]);
    }
  }

  lemma StepSaysAll(s: Socket, e: Event)
    requires AllSayAsPlayed(s) && FramesInOrder(s)
    ensures AllSayAsPlayed(Step(s, e))
  {
    StepGrowsByOne(s, e);
    hide Step, SaysAsPlayed, FramesInOrder;
    forall k | 0 <= k < |Step(s, e).ops| ensures SaysAsPlayed(Step(s, e), k) {
      if k < |s.ops| {
        StepSays(s, e, k);
      } else {
        NewSays(s, e);
      }
    }
  }

  lemma StepGrowsByOne(s: Socket, e: Event)
    ensures |s.ops| <= |Step(s, e).ops| <= |s.ops| + 1
  {
  }

  // ---- what each command is answered ----

  lemma {:induction false} PlayedPast(kind: Kind, answers: seq<Answer>, k: nat)
    requires k <= |answers| && Played(kind, answers[..k]).1.Finished?
    ensures Played(kind, answers) == Played(kind, answers[..k])
    decreases |answers|
  {
    if k == |answers| {
      assert answers[..k] == answers;
    } else {
      var n := |answers| - 1;
      assert answers[..n][..k] == answers[..k];
      PlayedPast(kind, answers[..n], k);
      assert Played(kind, answers[..n]).0 + [] == Played(kind, answers[..n]).0;
    }
  }

  /** A finished operation of the run that passed its staleness check throughout. */
  predicate Answered(s: Socket, i: nat, kind: Kind) {
    i < |s.ops| && s.ops[i].kind == kind && s.ops[i].steady && s.ops[i].point.Finished?
  }

  lemma AnsweredAsPlayed(events: seq<Event>, i: nat, kind: Kind)
    requires Answered(Run(events), i, kind)
    ensures Played(kind, Run(events).ops[i].heard) == (FramesOf(Run(events).trace, i), Finished)
  {
    EachSaysItsAnswers(events);
    assert SaysAsPlayed(Run(events), i);
  }

  /** Every finished ping was answered by status and pong, after the model or, if the catalog could not be
      read, two errors. */
  lemma PingIsAnswered(events: seq<Event>, i: nat)
    requires Answered(Run(events), i, Ping)
    ensures var a := Run(events).ops[i].heard;
            && |a| >= 3
            && FramesOf(Run(events).trace, i) ==
               (if a[1].ok then [ModelFrame] else [ErrorFrame, ErrorFrame])
               + (if a[2].status then [StatusFrame, PongFrame] else [PongFrame])
  {
    AnsweredAsPlayed(events, i, Ping);
    hide Run;
    PingPlayed(Run(events).ops[i].heard);
  }

  lemma PingPlayed(a: seq<Answer>)
    requires Played(Ping, a).1.Finished?
    ensures |a| >= 3
    ensures Played(Ping, a).0 ==
            (if a[1].ok then [ModelFrame] else [ErrorFrame, ErrorFrame])
            + (if a[2].status then [StatusFrame, PongFrame] else [PongFrame])
  {
    hide Played;
    Begins(Ping, a);
    Continues(Ping, a, 0, [], Waiting, []);
    PingGoesOn(a);
    hide Segment;
    PingEnds(a);
  }

  lemma PingGoesOn(a: seq<Answer>)
    requires Played(Ping, a).1.Finished? && |a| > 0 && Played(Ping, a[..1]) == ([], Catalog)
    ensures |a| > 1
    ensures Played(Ping, a[..2]) == ([if a[1].ok then ModelFrame else ErrorFrame], AfterCatalog(a[1].ok))
  {
    hide Played;
    Continues(Ping, a, 1, [], Catalog, [if |a| > 1 && a[1].ok then ModelFrame else ErrorFrame]);
  }

  lemma PingEnds(a: seq<Answer>)
    requires Played(Ping, a).1.Finished? && |a| > 1
    requires Played(Ping, a[..2]) == ([if a[1].ok then ModelFrame else ErrorFrame], AfterCatalog(a[1].ok))
    ensures |a| > 2
    ensures Played(Ping, a).0 == (if a[1].ok then [ModelFrame] else [ErrorFrame, ErrorFrame])
                                 + (if a[2].status then [StatusFrame, PongFrame] else [PongFrame])
  {
    hide Played;
    var said := [if a[1].ok then ModelFrame else ErrorFrame];
    var point := AfterCatalog(a[1].ok);
    Continues(Ping, a, 2, said, point, said + if |a| > 2 then Segment(Ping, point, true, a[2]).0 else []);
    PlayedPast(Ping, a, 3);
  }

  lemma Begins(kind: Kind, a: seq<Answer>)
    ensures Played(kind, a[..0]) == ([], Waiting)
  {
  }

  /** An operation that finishes goes on from every point at which it is not finished. */
  lemma Continues(kind: Kind, a: seq<Answer>, k: nat, said: seq<Frame>, point: Point, now: seq<Frame>)
    requires Played(kind, a).1.Finished? && k <= |a| && Played(kind, a[..k]) == (said, point) && !point.Finished?
    requires k < |a| ==> now == said + Segment(kind, point, true, a[k]).0
    ensures k < |a| && Played(kind, a[..k + 1]) == (now, Segment(kind, point, true, a[k]).1)
  {
    assert a[..|a|] == a;
    if k < |a| {
      assert a[..k + 1][..k] == a[..k];
    }
  }

  /** Every finished reload: its result exactly when each of its awaits ended well and unaborted, an error
      otherwise, and the refreshed frames exactly when the refresh itself did. */
  lemma ReloadIsAnswered(events: seq<Event>, i: nat)
    requires Answered(Run(events), i, Reload)
    ensures var a := Run(events).ops[i].heard;
            var said := FramesOf(Run(events).trace, i);
            && |a| >= 2
            && (Reloaded(a) ==> said == [RefreshedFrames, ModelFrame, ResultFrame])
            && (!Reloaded(a) ==> said != [] && said[|said| - 1] == ErrorFrame && ResultFrame !in said)
            && (RefreshedFrames in said <==> a[0].ok && a[1].Clean())
  {
    AnsweredAsPlayed(events, i, Reload);
    hide Run;
    ReloadPlayed(Run(events).ops[i].heard);
  }

  predicate Reloaded(a: seq<Answer>) {
    |a| >= 4 && a[0].ok && a[1].Clean() && a[2].Clean() && !a[3].aborted
  }

  lemma ReloadPlayed(a: seq<Answer>)
    requires Played(Reload, a).1.Finished?
    ensures var said := Played(Reload, a).0;
            && |a| >= 2
            && (Reloaded(a) ==> said == [RefreshedFrames, ModelFrame, ResultFrame])
            && (!Reloaded(a) ==> said != [] && said[|said| - 1] == ErrorFrame && ResultFrame !in said)
            && (RefreshedFrames in said <==> a[0].ok && a[1].Clean())
  {
    hide Played;
    Begins(Reload, a);
    Continues(Reload, a, 0, [], Waiting, []);
    if !a[0].ok {
      Continues(Reload, a, 1, [], Failed, [ErrorFrame]);
      PlayedPast(Reload, a, 2);
    } else {
      Continues(Reload, a, 1, [], Reloading, if |a| > 1 && a[1].Clean() then [RefreshedFrames] else []);
      if !a[1].Clean() {
        Continues(Reload, a, 2, [], Failed, [ErrorFrame]);
        PlayedPast(Reload, a, 3);
      } else {
        ReloadRefreshed(a);
      }
    }
  }

  lemma ReloadRefreshed(a: seq<Answer>)
    requires Played(Reload, a).1.Finished? && |a| >= 2 && a[0].ok && a[1].Clean()
    requires Played(Reload, a[..2]) == ([RefreshedFrames], Catalog)
    ensures var said := Played(Reload, a).0;
            && (Reloaded(a) ==> said == [RefreshedFrames, ModelFrame, ResultFrame])
            && (!Reloaded(a) ==> |said| > 1 && said[0] == RefreshedFrames && said[|said| - 1] == ErrorFrame
                                 && ResultFrame !in said)
  {
    hide Played;
    var model := if |a| > 2 && a[2].Clean() then [ModelFrame]
                 else if |a| > 2 && !a[2].aborted then [ErrorFrame] else [];
    var said := [RefreshedFrames] + model;
    Continues(Reload, a, 2, [RefreshedFrames], Catalog, said);
    var done := a[2].Clean() && |a| > 3 && !a[3].aborted;
    Continues(Reload, a, 3, said, AfterCatalog(a[2].Clean()), if done then said + [ResultFrame] else said);
    if done {
      PlayedPast(Reload, a, 4);
    } else {
      Continues(Reload, a, 4, said, Failed, said + [ErrorFrame]);
      PlayedPast(Reload, a, 5);
    }
  }

  /** Every finished direct command was answered by the agent's status, if it has one, and one result or error. */
  lemma DirectIsAnswered(events: seq<Event>, i: nat)
    requires Answered(Run(events), i, Direct)
    ensures var a := Run(events).ops[i].heard;
            && |a| >= 2
            && FramesOf(Run(events).trace, i) ==
               (if a[1].status then [StatusFrame] else []) + [if a[1].Clean() then ResultFrame else ErrorFrame]
  {
    AnsweredAsPlayed(events, i, Direct);
    hide Run;
    DirectPlayed(Run(events).ops[i].heard);
  }

  lemma DirectPlayed(a: seq<Answer>)
    requires Played(Direct, a).1.Finished?
    ensures |a| >= 2
    ensures Played(Direct, a).0 ==
            (if a[1].status then [StatusFrame] else []) + [if a[1].Clean() then ResultFrame else ErrorFrame]
  {
    hide Played;
    Begins(Direct, a);
    Continues(Direct, a, 0, [], Waiting, []);
    Continues(Direct, a, 1, [], Executing, if |a| > 1 then Segment(Direct, Executing, true, a[1]).0 else []);
    PlayedPast(Direct, a, 2);
  }

  /** Every finished selection was answered by the model or one error, or by nothing when it was malformed. */
  lemma SelectionIsAnswered(events: seq<Event>, i: nat)
    requires Answered(Run(events), i, ModelSet)
    ensures var a := Run(events).ops[i].heard;
            && |a| >= 1 && (a[0].ok ==> |a| >= 2) && (a[0].ok && a[1].ok ==> |a| >= 3)
            && FramesOf(Run(events).trace, i) ==
               if !a[0].ok then [] else if a[1].ok && a[2].ok then [ModelFrame] else [ErrorFrame]
  {
    AnsweredAsPlayed(events, i, ModelSet);
    hide Run;
    SelectionPlayed(Run(events).ops[i].heard);
  }

  lemma SelectionPlayed(a: seq<Answer>)
    requires Played(ModelSet, a).1.Finished?
    ensures |a| >= 1 && (a[0].ok ==> |a| >= 2) && (a[0].ok && a[1].ok ==> |a| >= 3)
    ensures Played(ModelSet, a).0 ==
            if !a[0].ok then [] else if a[1].ok && a[2].ok then [ModelFrame] else [ErrorFrame]
  {
    hide Played;
    Begins(ModelSet, a);
    Continues(ModelSet, a, 0, [], Waiting, []);
    if !a[0].ok {
      PlayedPast(ModelSet, a, 1);
    } else {
      Continues(ModelSet, a, 1, [], Selecting, if |a| > 1 && a[1].ok then [] else [ErrorFrame]);
      if !a[1].ok {
        PlayedPast(ModelSet, a, 2);
      } else {
        SelectionEnds(a);
      }
    }
  }

  lemma SelectionEnds(a: seq<Answer>)
    requires Played(ModelSet, a).1.Finished? && |a| > 1 && Played(ModelSet, a[..2]) == ([], Catalog)
    ensures |a| > 2 && Played(ModelSet, a).0 == [if a[2].ok then ModelFrame else ErrorFrame]
  {
    hide Played;
    var said := [if |a| > 2 && a[2].ok then ModelFrame else ErrorFrame];
    Continues(ModelSet, a, 2, [], Catalog, said);
    Continues(ModelSet, a, 3, said, AfterCatalog(a[2].ok), said);
    PlayedPast(ModelSet, a, 4);
  }

  /** Every finished configuration of the compaction model was answered by its result, or by one error. */
  lemma CompactionIsAnswered(events: seq<Event>, i: nat)
    requires Answered(Run(events), i, Compaction)
    ensures var a := Run(events).ops[i].heard;
            && |a| >= 2
            && FramesOf(Run(events).trace, i) == [if a[0].ok && a[1].ok then ResultFrame else ErrorFrame]
  {
    AnsweredAsPlayed(events, i, Compaction);
    hide Run;
    CompactionPlayed(Run(events).ops[i].heard);
  }

  lemma CompactionPlayed(a: seq<Answer>)
    requires Played(Compaction, a).1.Finished?
    ensures |a| >= 2 && Played(Compaction, a).0 == [if a[0].ok && a[1].ok then ResultFrame else ErrorFrame]
  {
    hide Played;
    Begins(Compaction, a);
    Continues(Compaction, a, 0, [], Waiting, []);
    if !a[0].ok {
      Continues(Compaction, a, 1, [], Failed, [ErrorFrame]);
      PlayedPast(Compaction, a, 2);
    } else {
      ConfiguredPlayed(a);
    }
  }

  lemma ConfiguredPlayed(a: seq<Answer>)
    requires Played(Compaction, a).1.Finished? && |a| > 0 && Played(Compaction, a[..1]) == ([], Configuring)
    ensures |a| >= 2 && Played(Compaction, a).0 == [if a[1].ok then ResultFrame else ErrorFrame]
  {
    hide Played;
    Continues(Compaction, a, 1, [], Configuring, if |a| > 1 && a[1].ok then [ResultFrame] else []);
    if a[1].ok {
      PlayedPast(Compaction, a, 2);
    } else {
      Continues(Compaction, a, 2, [], Failed, [ErrorFrame]);
      PlayedPast(Compaction, a, 3);
    }
  }

  /** Every finished query for the model was answered by it, or by one error. */
  lemma QueryIsAnswered(events: seq<Event>, i: nat)
    requires Answered(Run(events), i, ModelGet)
    ensures var a := Run(events).ops[i].heard;
            |a| >= 2 && FramesOf(Run(events).trace, i) == [if a[1].ok then ModelFrame else ErrorFrame]
  {
    AnsweredAsPlayed(events, i, ModelGet);
    hide Run;
    QueryPlayed(Run(events).ops[i].heard);
  }

  lemma QueryPlayed(a: seq<Answer>)
    requires Played(ModelGet, a).1.Finished?
    ensures |a| >= 2 && Played(ModelGet, a).0 == [if a[1].ok then ModelFrame else ErrorFrame]
  {
    hide Played;
    Begins(ModelGet, a);
    Continues(ModelGet, a, 0, [], Waiting, []);
    var said := [if |a| > 1 && a[1].ok then ModelFrame else ErrorFrame];
    Continues(ModelGet, a, 1, [], Catalog, said);
    Continues(ModelGet, a, 2, said, AfterCatalog(a[1].ok), said);
    PlayedPast(ModelGet, a, 3);
  }

  /** Every finished prompt operation published its queue once. */
  lemma PromptIsAnswered(events: seq<Event>, i: nat)
    requires Answered(Run(events), i, Prompt)
    ensures |Run(events).ops[i].heard| >= 2 && FramesOf(Run(events).trace, i) == [QueueFrame]
  {
    AnsweredAsPlayed(events, i, Prompt);
    hide Run;
    PromptPlayed(Run(events).ops[i].heard);
  }

  lemma PromptPlayed(a: seq<Answer>)
    requires Played(Prompt, a).1.Finished?
    ensures |a| >= 2 && Played(Prompt, a).0 == [QueueFrame]
  {
    hide Played;
    Begins(Prompt, a);
    Continues(Prompt, a, 0, [], Waiting, []);
    Continues(Prompt, a, 1, [], Acting, [QueueFrame]);
    PlayedPast(Prompt, a, 2);
  }

  /** A part of the list, neither complete nor given up. */
  predicate Partial(a: Answer) { !a.ok && !a.aborted }

  function Sessions(n: nat): seq<Frame> { seq(n, _ => SessionsFrame) }

  /** Every finished listing sent each part of the list and then the whole, or an error in its place. */
  lemma ListingIsAnswered(events: seq<Event>, i: nat)
    requires Answered(Run(events), i, ListSessions)
    ensures var a := Run(events).ops[i].heard;
            exists n | 0 < n < |a| ::
              && !Partial(a[n]) && (forall k | 0 < k < n :: Partial(a[k]))
              && FramesOf(Run(events).trace, i) == Sessions(n - 1) + [if a[n].ok then SessionsFrame else ErrorFrame]
  {
    AnsweredAsPlayed(events, i, ListSessions);
    hide Run;
    var a := Run(events).ops[i].heard;
    Begins(ListSessions, a);
    Continues(ListSessions, a, 0, [], Waiting, []);
    hide Played;
    assert Sessions(0) == [];
    var _ := ListingPlayed(a, 1);
  }

  lemma {:induction false} ListingPlayed(a: seq<Answer>, k: nat) returns (n: nat)
    requires Played(ListSessions, a).1.Finished? && 0 < k <= |a| && forall j | 0 < j < k :: Partial(a[j])
    requires Played(ListSessions, a[..k]) == (Sessions(k - 1), Listing)
    ensures k <= n < |a| && !Partial(a[n]) && forall j | 0 < j < n :: Partial(a[j])
    ensures Played(ListSessions, a).0 == Sessions(n - 1) + [if a[n].ok then SessionsFrame else ErrorFrame]
    decreases |a| - k
  {
    hide Played;
    var last := if k < |a| && !a[k].ok && a[k].aborted then ErrorFrame else SessionsFrame;
    Continues(ListSessions, a, k, Sessions(k - 1), Listing, Sessions(k - 1) + [last]);
    if Partial(a[k]) {
      assert Sessions(k - 1) + [SessionsFrame] == Sessions(k);
      n := ListingPlayed(a, k + 1);
    } else {
      PlayedPast(ListSessions, a, k + 1);
      n := k;
    }
  }

  // ---- that operations arrive, go on and are never stuck ----

  /** What arrives captures the connection and waits; a ping without a connection is answered at once, and a
      selection is queued all the same. */
  lemma OperationArrives(events: seq<Event>, kind: Kind)
    ensures var s, t := Run(events), Run(events + [Arrive(kind)]);
            var n := |s.ops|;
            if s.conn.Some? || kind == ModelSet then
              && t.trace == s.trace && |t.ops| == n + 1 && t.ops[..n] == s.ops
              && t.ops[n].kind == kind && t.ops[n].conn == s.conn && t.ops[n].point == Waiting && t.ops[n].heard == []
            else t.ops == s.ops && t.trace == s.trace + (if kind == Ping then [BarePong] else [])
  {
    assert (events + [Arrive(kind)])[..|events|] == events;
  }

  /** A list of sessions waits for nothing. */
  lemma ListingStartsAtOnce(events: seq<Event>)
    requires Run(events).conn.Some?
    ensures var t := Run(events + [Arrive(ListSessions)]); MayRun(t.ops, t.ops[|t.ops| - 1])
  {
    OperationArrives(events, ListSessions);
    assert (events + [Arrive(ListSessions)])[..|events|] == events;
  }

  /** The finalizer of the last promise of the model chain makes the tail null, and any other does nothing. */
  lemma FinalizerClears(events: seq<Event>, i: nat)
    ensures var s, t := Run(events), Run(events + [ClearTail(i)]);
            var last := i < |s.ops| && s.ops[i].point.Finished? && Models in s.tails && s.tails[Models] == i;
            && t.ops == s.ops && t.trace == s.trace && (Models in t.tails <==> Models in s.tails && !last)
            && (forall lane | lane != Models || !last ::
                  (lane in t.tails <==> lane in s.tails) && (lane in t.tails ==> t.tails[lane] == s.tails[lane]))
  {
    assert (events + [ClearTail(i)])[..|events|] == events;
  }

  /** How many more answers an operation at a point can take, unless it lists sessions. */
  function Left(point: Point): nat {
    match point
    case Waiting => 5
    case Catalog => 3
    case AfterCatalog(_) => 2
    case Failed => 1
    case Finished => 0
    case _ => 4
  }

  lemma EachSegmentIsProgress(op: Op, current: bool, a: Answer)
    requires !op.kind.ListSessions? && !op.point.Finished? && !op.point.Listing?
    ensures var next := Segment(op.kind, op.point, current, a).1; Left(next) < Left(op.point) && !next.Listing?
  {
  }

  ghost predicate FewAnswers(s: Socket) {
    forall i | 0 <= i < |s.ops| && !s.ops[i].kind.ListSessions? ::
      |s.ops[i].heard| + Left(s.ops[i].point) <= 5 && !s.ops[i].point.Listing?
  }

  lemma StepTakesFewAnswers(s: Socket, e: Event)
    requires FewAnswers(s)
    ensures FewAnswers(Step(s, e))
  {
    hide Segment;
    if e.Advance? && e.op < |s.ops| && MayRun(s.ops, s.ops[e.op]) && !s.ops[e.op].kind.ListSessions? {
      EachSegmentIsProgress(s.ops[e.op], s.Passes(s.ops[e.op]), e.answer);
    }
  }

  /** Every operation but a list of sessions, stale or not, is over after five answers at the latest. */
  lemma {:induction false} EachIsOverSoon(events: seq<Event>)
    ensures FewAnswers(Run(events))
  {
    if events != [] {
      EachIsOverSoon(events[..|events| - 1]);
      StepTakesFewAnswers(Run(events[..|events| - 1]), events[|events| - 1]);
    }
  }

  /** An operation that may run takes the answer it waits for, and no other operation changes. */
  lemma OperationGoesOn(events: seq<Event>, i: nat, a: Answer)
    requires i < |Run(events).ops|
    ensures var s, t := Run(events), Run(events + [Advance(i, a)]);
            if MayRun(s.ops, s.ops[i]) then
              && |t.ops| == |s.ops| && (forall k | 0 <= k < |s.ops| && k != i :: t.ops[k] == s.ops[k])
              && t.ops[i].heard == s.ops[i].heard + [a] && t.ops[i].kind == s.ops[i].kind
              && t.ops[i].conn == s.ops[i].conn && t.ops[i].steady == (s.ops[i].steady && s.Passes(s.ops[i]))
            else t == s
  {
    assert (events + [Advance(i, a)])[..|events|] == events;
  }

  predicate WaitsForEarlier(s: Socket) {
    && (forall i | 0 <= i < |s.ops| && s.ops[i].after.Some? :: s.ops[i].after.value < i)
    && (forall lane <- s.tails :: s.tails[lane] < |s.ops|)
  }

  lemma {:induction false} RunWaitsForEarlier(events: seq<Event>)
    ensures WaitsForEarlier(Run(events))
  {
    if events != [] {
      RunWaitsForEarlier(events[..|events| - 1]);
      StepWaitsForEarlier(Run(events[..|events| - 1]), events[|events| - 1]);
    }
  }

  lemma StepWaitsForEarlier(s: Socket, e: Event)
    requires WaitsForEarlier(s)
    ensures WaitsForEarlier(Step(s, e))
  {
    hide Segment;
  }

  /** Nothing is ever stuck: while an operation is unfinished, it or one that arrived before it may run. */
  lemma NothingIsStuck(events: seq<Event>, i: nat)
    requires i < |Run(events).ops| && !Run(events).ops[i].point.Finished?
    ensures exists j | 0 <= j <= i :: MayRun(Run(events).ops, Run(events).ops[j])
  {
    RunWaitsForEarlier(events);
    hide Run;
    var _ := FirstThatMayRun(Run(events), i);
  }

  lemma {:induction false} FirstThatMayRun(s: Socket, i: nat) returns (j: nat)
    requires WaitsForEarlier(s) && i < |s.ops| && !s.ops[i].point.Finished?
    ensures j <= i && MayRun(s.ops, s.ops[j])
    decreases i
  {
    j := i;
    if !MayRun(s.ops, s.ops[i]) {
      j := FirstThatMayRun(s, s.ops[i].after.value);
    }
  }
}
