/** What the operations of a client socket come to in every run: which of them replace its connection, and when. */
module ConnectionRuns {
  import opened Basics
  import opened Connections

  /** Where an operation of a kind can be. */
  predicate PointFits(task: Task) {
    match task.kind
    case Hello => task.current == None && (Greeting(task.point) || task.point.Swapped? || task.point.Done?)
    case New => task.current.Some? && (task.point.Creating? || task.point.Swapped? || task.point.Done?)
    case NewInput =>
      task.current.Some? && !Greeting(task.point) && !task.point.Resuming?
    case AttachSession => task.current.Some? && (task.point.Resuming? || task.point.Done?)
  }

  /** A connection that was swapped out stays out, since numbers are not used again. */
  ghost predicate Fitting(s: Socket) {
    && Below(s) && (s.conn.Some? ==> s.conn.value < s.attached)
    && forall i | 0 <= i < |s.tasks| :: TaskFits(s, s.tasks[i])
  }

  predicate TaskFits(s: Socket, task: Task) {
    && PointFits(task)
    && (task.point.Swapped? ==> task.point.next < s.attached)
    && (task.current.Some? ==> task.current.value < s.attached)
    && (task.point.Swapped? && task.current.Some? ==> task.current.value !in s.registered)
  }

  lemma {:induction false} DetachedAllTasks(s: Socket, ids: nat)
    ensures DetachedAll(s, ids).tasks == s.tasks && DetachedAll(s, ids).conn == s.conn
  {
    if ids > 0 {
      DetachedAllTasks(s, ids - 1);
    }
  }

  lemma StepFits(s: Socket, e: Event)
    requires Fitting(s)
    ensures Fitting(Step(s, e))
  {
    match e
    case Resume(i, ok) => if i < |s.tasks| { ContinuedFits(s, i, ok); }
    case Dispose =>
      DetachedAllRegistered(s, s.attached);
      DetachedAllTasks(s, s.attached);
    case _ =>
  }

  lemma ContinuedFits(s: Socket, i: nat, ok: bool)
    requires Fitting(s) && i < |s.tasks|
    ensures Fitting(Continued(s, i, ok))
  {
    var t := Continued(s, i, ok);
    OneTaskMoves(s, i, ok);
    TheMovedFits(s, i, ok);
    hide Continued, PointFits;
    forall k | 0 <= k < |t.tasks| ensures TaskFits(t, t.tasks[k]) {
      assert TaskFits(s, s.tasks[k]);
    }
  }

  /** Going on moves one task and adds at most a connection with a new number. */
  lemma OneTaskMoves(s: Socket, i: nat, ok: bool)
    requires Fitting(s) && i < |s.tasks|
    ensures var t := Continued(s, i, ok);
            && |t.tasks| == |s.tasks| && (forall k | 0 <= k < |s.tasks| && k != i :: t.tasks[k] == s.tasks[k])
            && s.attached <= t.attached && (t.conn.Some? ==> t.conn.value < t.attached)
            && (forall c <- t.registered :: c < t.attached && (c in s.registered || c == s.attached))
  {
    assert TaskFits(s, s.tasks[i]);
    hide PointFits;
  }

  lemma TheMovedFits(s: Socket, i: nat, ok: bool)
    requires Fitting(s) && i < |s.tasks|
    ensures TaskFits(Continued(s, i, ok), Continued(s, i, ok).tasks[i])
  {
    assert TaskFits(s, s.tasks[i]);
  }

  lemma {:induction false} RunFits(events: seq<Event>)
    ensures Fitting(Run(events))
  {
    if events != [] {
      RunFits(events[..|events| - 1]);
      StepFits(Run(events[..|events| - 1]), events[|events| - 1]);
    }
  }

  /** In one segment `c` is unregistered and cleaned up, and a connection with a new number registered. */
  predicate Swap(s: Socket, t: Socket, c: nat) {
    && c in s.registered && t.registered == s.registered - {c} + {s.attached}
    && t.attached == s.attached + 1 && t.cleaned == s.cleaned + [c]
  }

  predicate SameConnections(s: Socket, t: Socket) {
    t.conn == s.conn && t.registered == s.registered && t.attached == s.attached && t.cleaned == s.cleaned
  }

  lemma Resumed(events: seq<Event>, i: nat, ok: bool)
    requires i < |Run(events).tasks|
    ensures Run(events + [Resume(i, ok)]) == Continued(Run(events), i, ok) && PointFits(Run(events).tasks[i])
  {
    RunFits(events);
    assert TaskFits(Run(events), Run(events).tasks[i]);
    assert (events + [Resume(i, ok)])[..|events|] == events;
  }

  /** An attach whose session was found switches to it, if the connection it captured is still the socket's and
      registered; in every other case no connection changes. Either way it is over. */
  lemma AttachSwitches(events: seq<Event>, i: nat, ok: bool)
    requires i < |Run(events).tasks| && Run(events).tasks[i].kind == AttachSession
    ensures var s, t := Run(events), Run(events + [Resume(i, ok)]);
            && s.tasks[i].current.Some? && t.tasks[i].point == Done
            && var c := s.tasks[i].current.value;
               if s.tasks[i].point != Done && ok && s.conn == Some(c) && c in s.registered
               then Swap(s, t, c) && t.conn == Some(s.attached)
               else SameConnections(s, t)
  {
    Resumed(events, i, ok);
  }

  /** New input that waited for the models goes on to create a session exactly if its connection is still the
      socket's and registered. */
  lemma RecheckGoesOn(events: seq<Event>, i: nat, ok: bool)
    requires i < |Run(events).tasks| && Run(events).tasks[i].point == WaitingModels
    ensures var s, t := Run(events), Run(events + [Resume(i, ok)]);
            && s.tasks[i].kind == NewInput && s.tasks[i].current.Some? && SameConnections(s, t)
            && t.tasks[i].point == if s.IsCurrent(s.tasks[i].current.value) then Creating else Done
  {
    Resumed(events, i, ok);
  }

  /** A created session replaces the captured connection if that is still registered; then it waits to be
      assigned. Otherwise no connection changes and the operation is over. */
  lemma CreationSwaps(events: seq<Event>, i: nat, ok: bool)
    requires i < |Run(events).tasks| && Run(events).tasks[i].point == Creating
    ensures var s, t := Run(events), Run(events + [Resume(i, ok)]);
            && s.tasks[i].kind in {New, NewInput} && s.tasks[i].current.Some? && t.conn == s.conn
            && if ok && s.tasks[i].current.value in s.registered
               then Swap(s, t, s.tasks[i].current.value) && t.tasks[i].point == Swapped(s.attached)
               else SameConnections(s, t) && t.tasks[i].point == Done
  {
    Resumed(events, i, ok);
  }

  /** What waits to be assigned always is: nothing that happens meanwhile prevents it. */
  lemma AssignmentFollows(events: seq<Event>, i: nat, ok: bool)
    requires i < |Run(events).tasks| && Run(events).tasks[i].point.Swapped?
    ensures var s, t := Run(events), Run(events + [Resume(i, ok)]);
            && t.conn == Some(s.tasks[i].point.next) && SameConnections(s.(conn := t.conn), t)
            && t.tasks[i].point == Done
  {
    RunFits(events);
    assert TaskFits(Run(events), Run(events).tasks[i]);
    Resumed(events, i, ok);
  }

  /** A hello takes the session it resumes at once; failing that it creates one, which then waits to be assigned;
      failing that too, it leaves the socket as it was. */
  lemma HelloComesTo(events: seq<Event>, i: nat, ok: bool)
    requires i < |Run(events).tasks| && Greeting(Run(events).tasks[i].point)
    ensures var s, t := Run(events), Run(events + [Resume(i, ok)]);
            var resuming := s.tasks[i].point == HelloResuming;
            && (if !ok then SameConnections(s, t)
                else
                  && t.registered == s.registered + {s.attached} && t.attached == s.attached + 1
                  && t.cleaned == s.cleaned && t.conn == if resuming then Some(s.attached) else s.conn)
            && t.tasks[i].point ==
               if resuming then (if ok then Done else HelloCreating)
               else if ok then Swapped(s.attached) else Done
  {
    Resumed(events, i, ok);
  }

  /** Everything else only takes connections away: a close the socket's own, a disposal all. */
  lemma OnlyOperationsAttach(events: seq<Event>, e: Event)
    requires !e.Resume?
    ensures var s, t := Run(events), Run(events + [e]);
            && t.attached == s.attached && s.tasks <= t.tasks
            && match e
               case Close =>
                 && t.conn == None
                 && t.registered == if s.conn.Some? then s.registered - {s.conn.value} else s.registered
               case Dispose => t.conn == s.conn && t.registered == {}
               case _ => SameConnections(s, t)
  {
    assert (events + [e])[..|events|] == events;
    if e.Dispose? {
      var s := Run(events);
      AlwaysBelow(events);
      DetachedAllRegistered(s, s.attached);
      DetachedAllTasks(s, s.attached);
      DetachedAllLeavesNone(s, s.attached);
    }
  }

  lemma {:induction false} DetachedAllLeavesNone(s: Socket, ids: nat)
    ensures forall c <- DetachedAll(s, ids).registered :: c >= ids
  {
    if ids > 0 {
      DetachedAllLeavesNone(s, ids - 1);
    }
  }

  /** Step `k` is the moment operation `i` succeeds: its session was found or created, and the connection it
      captured is still registered and, for an attach, still the socket's. */
  ghost predicate Succeeds(events: seq<Event>, k: nat, i: nat)
    requires k < |events|
  {
    var s := Run(events[..k]);
    && events[k] == Resume(i, true) && i < |s.tasks| && s.tasks[i].current.Some?
    && s.tasks[i].current.value in s.registered
    && (if s.tasks[i].kind == AttachSession then s.tasks[i].point == Resuming && s.conn == s.tasks[i].current
        else s.tasks[i].point == Creating)
  }

  lemma TaskStays(s: Socket, e: Event, i: nat)
    requires i < |s.tasks| && !(e.Resume? && e.task == i)
    ensures var t := Step(s, e); i < |t.tasks| && t.tasks[i] == s.tasks[i]
  {
    match e
    case Resume(j, ok) => if j < |s.tasks| { OtherTaskStays(s, j, ok, i); }
    case _ =>
      hide Continued;
      DetachedAllTasks(s, s.attached);
  }

  lemma OtherTaskStays(s: Socket, j: nat, ok: bool, i: nat)
    requires i < |s.tasks| && j < |s.tasks| && i != j
    ensures var t := Continued(s, j, ok); i < |t.tasks| && t.tasks[i] == s.tasks[i]
  {
  }

  lemma {:induction false} TasksGrow(events: seq<Event>, k: nat)
    requires k <= |events|
    ensures |Run(events[..k]).tasks| <= |Run(events).tasks|
  {
    if k == |events| {
      assert events[..k] == events;
    } else {
      var before, e := events[..|events| - 1], events[|events| - 1];
      assert Run(events) == Step(Run(before), e);
      hide Run;
      TasksGrow(before, k);
      assert before[..k] == events[..k];
      StepKeepsTasks(Run(before), e);
    }
  }

  lemma StepKeepsTasks(s: Socket, e: Event)
    ensures |s.tasks| <= |Step(s, e).tasks|
  {
    DetachedAllTasks(s, s.attached);
  }

  ghost predicate SwapsAt(events: seq<Event>, k: nat, i: nat, c: nat)
    requires k < |events|
  {
    events[k].Resume? && events[k].task == i && Swap(Run(events[..k]), Run(events[..k + 1]), c)
  }

  /** At step `k` a new connection replaces the one operation `i` captured, and at step `j` it is made the
      socket's. */
  ghost predicate Switches(events: seq<Event>, i: nat, k: nat, j: nat)
    requires k <= j < |events| && i < |Run(events).tasks|
  {
    var current := Run(events).tasks[i].current;
    && current.Some? && SwapsAt(events, k, i, current.value)
    && events[j].Resume? && events[j].task == i && Run(events[..j + 1]).conn == Some(Run(events[..k]).attached)
  }

  ghost predicate Switched(events: seq<Event>, i: nat)
    requires i < |Run(events).tasks|
  {
    exists k, j | 0 <= k <= j < |events| :: Switches(events, i, k, j)
  }

  ghost predicate Succeeded(events: seq<Event>, i: nat) {
    exists k | 0 <= k < |events| :: Succeeds(events, k, i)
  }

  /** Step `k` swapped in the connection `next`, which waits to be assigned. */
  ghost predicate SwappedIn(events: seq<Event>, i: nat, next: nat)
    requires i < |Run(events).tasks|
  {
    var current := Run(events).tasks[i].current;
    current.Some? &&
    exists k | 0 <= k < |events| :: SwapsAt(events, k, i, current.value) && Run(events[..k]).attached == next
  }

  /** How far operation `i` is: while it waits it has not succeeded; when it waits to be assigned it has swapped;
      when it is over and has succeeded it has switched. */
  ghost predicate Progress(events: seq<Event>, i: nat)
    requires i < |Run(events).tasks|
  {
    var point := Run(events).tasks[i].point;
    if point.Done? then Succeeded(events, i) ==> Switched(events, i)
    else if point.Swapped? then SwappedIn(events, i, point.next)
    else !Succeeded(events, i)
  }

  lemma EarlierSteps(before: seq<Event>, e: Event, i: nat)
    ensures var events := before + [e];
            && Run(events) == Step(Run(before), e)
            && (forall k | 0 <= k < |before| :: Succeeds(events, k, i) == Succeeds(before, k, i))
            && (forall k, c: nat | 0 <= k < |before| :: SwapsAt(events, k, i, c) == SwapsAt(before, k, i, c))
            && (forall k | 0 <= k <= |before| :: events[..k] == before[..k])
  {
    hide Run, Step, Swap;
    var events := before + [e];
    assert events[..|before|] == before;
    assert Run(events) == Step(Run(before), e) by { RunOneMore(before, e); }
    assert forall k | 0 <= k <= |before| :: events[..k] == before[..k];
  }

  lemma RunOneMore(before: seq<Event>, e: Event)
    ensures Run(before + [e]) == Step(Run(before), e)
  {
    assert (before + [e])[..|before|] == before;
  }

  lemma SucceededOn(before: seq<Event>, e: Event, i: nat)
    ensures Succeeded(before + [e], i) <==> Succeeded(before, i) || Succeeds(before + [e], |before|, i)
  {
    EarlierSteps(before, e, i);
    hide Run, Succeeds, SwapsAt;
    var events := before + [e];
    if Succeeded(before, i) {
      var k :| 0 <= k < |before| && Succeeds(before, k, i);
      assert Succeeds(events, k, i);
    }
  }

  lemma SwitchedOn(before: seq<Event>, e: Event, i: nat)
    requires i < |Run(before).tasks| && i < |Run(before + [e]).tasks| && Switched(before, i)
    requires Run(before + [e]).tasks[i].current == Run(before).tasks[i].current
    ensures Switched(before + [e], i)
  {
    EarlierSteps(before, e, i);
    var events := before + [e];
    var k, j :| 0 <= k <= j < |before| && Switches(before, i, k, j);
    assert events[..j + 1] == before[..j + 1];
    assert Switches(events, i, k, j);
  }

  lemma SwappedInOn(before: seq<Event>, e: Event, i: nat, next: nat)
    requires i < |Run(before).tasks| && i < |Run(before + [e]).tasks| && SwappedIn(before, i, next)
    requires Run(before + [e]).tasks[i].current == Run(before).tasks[i].current
    ensures SwappedIn(before + [e], i, next)
  {
    EarlierSteps(before, e, i);
    hide Run, SwapsAt;
    var events, c := before + [e], Run(before).tasks[i].current.value;
    var k :| 0 <= k < |before| && SwapsAt(before, k, i, c) && Run(before[..k]).attached == next;
    assert SwapsAt(events, k, i, c);
  }

  /** Whatever happens to the others. */
  lemma OthersKeepProgress(before: seq<Event>, e: Event, i: nat)
    requires i < |Run(before).tasks| && Progress(before, i) && !(e.Resume? && e.task == i)
    ensures i < |Run(before + [e]).tasks| && Progress(before + [e], i)
  {
    RunOneMore(before, e);
    TaskStays(Run(before), e, i);
    SucceededOn(before, e, i);
    hide Run, Step, Switched, SwappedIn, Succeeded;
    var point := Run(before).tasks[i].point;
    if point.Swapped? {
      SwappedInOn(before, e, i, point.next);
    } else if point.Done? && Succeeded(before, i) {
      SwitchedOn(before, e, i);
    }
  }

  lemma TaskGoesOn(s: Socket, i: nat, ok: bool)
    requires i < |s.tasks|
    ensures var t := Continued(s, i, ok);
            && i < |t.tasks| && t.tasks[i].current == s.tasks[i].current && t.tasks[i].kind == s.tasks[i].kind
            && (s.tasks[i].point == Done ==> t == s)
  {
  }

  lemma SucceedsNow(before: seq<Event>, i: nat, ok: bool)
    requires i < |Run(before).tasks|
    ensures var task := Run(before).tasks[i];
            Succeeds(before + [Resume(i, ok)], |before|, i) <==>
              && ok && task.current.Some? && task.current.value in Run(before).registered
              && (if task.kind == AttachSession then task.point == Resuming && Run(before).conn == task.current
                  else task.point == Creating)
  {
    assert (before + [Resume(i, ok)])[..|before|] == before;
  }

  /** The step that succeeds swaps, and an attach is the socket's at once. */
  lemma SwapHappens(before: seq<Event>, i: nat, ok: bool)
    requires i < |Run(before).tasks| && Run(before).tasks[i].kind != Hello
    requires Succeeds(before + [Resume(i, ok)], |before|, i)
    ensures var s, t := Run(before), Run(before + [Resume(i, ok)]);
            && i < |t.tasks| && t.tasks[i].current == s.tasks[i].current && t.tasks[i].current.Some?
            && Swap(s, t, s.tasks[i].current.value)
            && (t.tasks[i].point == Swapped(s.attached)
                || (t.tasks[i].point == Done && t.conn == Some(s.attached)))
  {
    SucceedsNow(before, i, ok);
    Resumed(before, i, ok);
    TaskGoesOn(Run(before), i, ok);
    if Run(before).tasks[i].kind == AttachSession {
      AttachSwitches(before, i, ok);
    } else {
      CreationSwaps(before, i, ok);
    }
  }

  lemma SwapsNow(before: seq<Event>, i: nat, ok: bool)
    requires i < |Run(before).tasks| && Run(before).tasks[i].kind != Hello
    requires Succeeds(before + [Resume(i, ok)], |before|, i)
    ensures var events := before + [Resume(i, ok)];
            var s, t := Run(before), Run(events);
            && i < |t.tasks| && t.tasks[i].current == s.tasks[i].current
            && SwappedIn(events, i, s.attached)
            && (t.tasks[i].point.Swapped? ==> t.tasks[i].point.next == s.attached)
            && (t.tasks[i].point.Done? ==> Switched(events, i))
            && (t.tasks[i].point.Done? || t.tasks[i].point.Swapped?)
  {
    hide Run, Succeeds, Swap;
    var events, n := before + [Resume(i, ok)], |before|;
    SwapHappens(before, i, ok);
    assert events[..n] == before && events[..n + 1] == events;
    assert SwapsAt(events, n, i, Run(before).tasks[i].current.value);
    if Run(events).tasks[i].point.Done? {
      assert Switches(events, i, n, n);
    }
  }

  lemma AssignedLast(before: seq<Event>, i: nat, ok: bool)
    requires i < |Run(before).tasks| && Run(before).tasks[i].point.Swapped?
    requires SwappedIn(before, i, Run(before).tasks[i].point.next)
    ensures i < |Run(before + [Resume(i, ok)]).tasks| && Switched(before + [Resume(i, ok)], i)
  {
    var e := Resume(i, ok);
    var events, n := before + [e], |before|;
    Resumed(before, i, ok);
    TaskGoesOn(Run(before), i, ok);
    AssignmentFollows(before, i, ok);
    hide Run, Step, Continued, SwapsAt, SwappedIn, Switched;
    var next := Run(before).tasks[i].point.next;
    SwappedInOn(before, e, i, next);
    LastAssigns(events, i, next);
  }

  lemma LastAssigns(events: seq<Event>, i: nat, next: nat)
    requires i < |Run(events).tasks| && SwappedIn(events, i, next) && Run(events).conn == Some(next)
    requires events != [] && events[|events| - 1].Resume? && events[|events| - 1].task == i
    ensures Switched(events, i)
  {
    hide Run, SwapsAt;
    var n, c := |events| - 1, Run(events).tasks[i].current.value;
    var k :| 0 <= k <= n && SwapsAt(events, k, i, c) && Run(events[..k]).attached == next;
    assert events[..n + 1] == events;
    assert Switches(events, i, k, n);
  }

  lemma OwnStepProgresses(before: seq<Event>, i: nat, ok: bool)
    requires i < |Run(before).tasks| && Run(before).tasks[i].kind != Hello && Progress(before, i)
    ensures i < |Run(before + [Resume(i, ok)]).tasks| && Progress(before + [Resume(i, ok)], i)
  {
    var e := Resume(i, ok);
    var s, events := Run(before), before + [e];
    Resumed(before, i, ok);
    TaskGoesOn(s, i, ok);
    SucceededOn(before, e, i);
    SucceedsNow(before, i, ok);
    var point := s.tasks[i].point;
    if point.Done? && Succeeded(before, i) {
      SwitchedOn(before, e, i);
    }
    if point.WaitingModels? { RecheckGoesOn(before, i, ok); }
    if point.Creating? { CreationSwaps(before, i, ok); }
    if point.Resuming? { AttachSwitches(before, i, ok); }
    if point.Swapped? { AssignmentFollows(before, i, ok); }
    hide Run, Continued, Succeeds, Succeeded, Step;
    if point.Swapped? {
      AssignedLast(before, i, ok);
    } else if Succeeds(events, |before|, i) {
      SwapsNow(before, i, ok);
    }
  }

  lemma NoneBeforeItBegan(events: seq<Event>, i: nat)
    requires i >= |Run(events).tasks|
    ensures !Succeeded(events, i)
  {
    forall k | 0 <= k < |events| ensures !Succeeds(events, k, i) {
      TasksGrow(events, k);
    }
  }

  lemma {:induction false} RunProgresses(events: seq<Event>, i: nat)
    requires i < |Run(events).tasks| && Run(events).tasks[i].kind != Hello
    ensures Progress(events, i)
  {
    var before, e := events[..|events| - 1], events[|events| - 1];
    assert before + [e] == events;
    RunOneMore(before, e);
    if i >= |Run(before).tasks| {
      NoneBeforeItBegan(before, i);
      SucceededOn(before, e, i);
      ItBegins(Run(before), e, i);
      assert events[..|before|] == before;
    } else {
      if e.Resume? && e.task == i {
        TaskGoesOn(Run(before), i, e.ok);
        RunProgresses(before, i);
        OwnStepProgresses(before, i, e.ok);
      } else {
        TaskStays(Run(before), e, i);
        RunProgresses(before, i);
        OthersKeepProgress(before, e, i);
      }
    }
  }

  lemma ItBegins(s: Socket, e: Event, i: nat)
    requires |s.tasks| <= i < |Step(s, e).tasks|
    ensures !Step(s, e).tasks[i].point.Done? && !Step(s, e).tasks[i].point.Swapped?
  {
    DetachedAllTasks(s, s.attached);
  }

  /** Only a step that succeeds swaps the captured connection. */
  lemma SwapSucceeds(events: seq<Event>, k: nat, i: nat, c: nat)
    requires k < |events| && SwapsAt(events, k, i, c)
    ensures Succeeds(events, k, i)
  {
    var s, ok := Run(events[..k]), events[k].ok;
    assert events[..k + 1] == events[..k] + [events[k]];
    RunOneMore(events[..k], events[k]);
    assert i < |s.tasks|;
    Resumed(events[..k], i, ok);
  }

  /** In every run an attach, a /new or new input that is over has switched the socket - in one segment replaced
      the connection it captured by a new one, and made that the socket's then or later - if and only if it came
      to the moment when its session was there, the captured connection still registered and, for an attach,
      still the socket's. */
  lemma EndsInSwitchExactly(events: seq<Event>, i: nat)
    requires i < |Run(events).tasks| && Run(events).tasks[i].kind != Hello && Run(events).tasks[i].point == Done
    ensures Switched(events, i) <==> Succeeded(events, i)
  {
    RunProgresses(events, i);
    if Switched(events, i) {
      var k, j :| 0 <= k <= j < |events| && Switches(events, i, k, j);
      SwapSucceeds(events, k, i, Run(events).tasks[i].current.value);
    }
  }

  /** What a message begins captures the socket's connection and waits; without a connection nothing begins. */
  lemma OperationBegins(events: seq<Event>, kind: Kind)
    requires kind != Hello
    ensures var s, t := Run(events), Run(events + [Receive(kind)]);
            var n := |s.tasks|;
            && (s.conn == None ==> t == s)
            && (s.conn.Some? ==>
                  && SameConnections(s, t) && |t.tasks| == n + 1 && t.tasks[..n] == s.tasks
                  && t.tasks[n].kind == kind && t.tasks[n].current == s.conn
                  && !t.tasks[n].point.Done? && !t.tasks[n].point.Swapped?)
  {
    RunOneMore(events, Receive(kind));
  }

  /** A hello is suspended looking for the session it names, or creating one; a refused one begins nothing. */
  lemma GreetingBegins(events: seq<Event>, resume: bool)
    ensures var s, t := Run(events), Run(events + [Greet(resume)]);
            && SameConnections(s, t)
            && t.tasks == s.tasks + [Task(Hello, None, if resume then HelloResuming else HelloCreating)]
    ensures Run(events + [Refuse]) == Run(events)
  {
    RunOneMore(events, Greet(resume));
    RunOneMore(events, Refuse);
  }

  /** A request of a registered connection waits for its answer; of any other it is not taken. */
  lemma RequestWaits(events: seq<Event>, owner: nat)
    ensures var s, t := Run(events), Run(events + [Request(owner)]);
            t == if owner in s.registered then s.(approvals := s.approvals + [Approval(owner, true, false, 0)]) else s
  {
    RunOneMore(events, Request(owner));
  }

  /** At step `h` new input was found to have kept its connection. */
  ghost predicate Rechecked(events: seq<Event>, h: nat, i: nat)
    requires h < |events|
  {
    var s := Run(events[..h]);
    && events[h].Resume? && events[h].task == i && i < |s.tasks|
    && s.tasks[i].current.Some? && s.IsCurrent(s.tasks[i].current.value)
  }

  lemma GoesOnToCreate(s: Socket, i: nat, ok: bool)
    requires i < |s.tasks| && Continued(s, i, ok).tasks[i].point == Creating
    ensures s.tasks[i].current.Some? && s.IsCurrent(s.tasks[i].current.value)
  {
  }

  /** New input never creates a session without that. */
  lemma {:induction false} CreatesOnlyRechecked(events: seq<Event>, i: nat)
    requires i < |Run(events).tasks| && Run(events).tasks[i].kind == NewInput && Run(events).tasks[i].point == Creating
    ensures exists h | 0 <= h < |events| :: Rechecked(events, h, i)
  {
    var n := |events| - 1;
    var before, e := events[..n], events[n];
    var s := Run(before);
    assert Run(events) == Step(s, e);
    hide Run;
    if i >= |s.tasks| {
      DetachedAllTasks(s, s.attached);
    } else if e.Resume? && e.task == i {
      GoesOnToCreate(s, i, e.ok);
      assert Rechecked(events, n, i);
    } else {
      hide Step;
      TaskStays(s, e, i);
      CreatesOnlyRechecked(before, i);
      var h :| 0 <= h < n && Rechecked(before, h, i);
      assert events[..h] == before[..h] && Rechecked(events, h, i);
    }
  }

  lemma {:induction false} AlwaysOnce(events: seq<Event>)
    ensures ApprovalsOnce(Run(events))
  {
    if events != [] {
      AlwaysOnce(events[..|events| - 1]);
      StepSettlesOnce(Run(events[..|events| - 1]), events[|events| - 1]);
    }
  }

  lemma StepSettlesOnce(s: Socket, e: Event)
    requires ApprovalsOnce(s)
    ensures ApprovalsOnce(Step(s, e))
  {
    match e
    case Dispose => DetachedAllSettlesOnce(s, s.attached);
    case Resume(i, ok) => if i < |s.tasks| { ContinuedSettlesOnce(s, i, ok); }
    case _ => hide Continued;
  }

  lemma ContinuedSettlesOnce(s: Socket, i: nat, ok: bool)
    requires ApprovalsOnce(s) && i < |s.tasks|
    ensures ApprovalsOnce(Continued(s, i, ok))
  {
  }

  lemma {:induction false} DetachedAllSettlesOnce(s: Socket, ids: nat)
    requires ApprovalsOnce(s)
    ensures ApprovalsOnce(DetachedAll(s, ids))
  {
    if ids > 0 {
      DetachedAllSettlesOnce(s, ids - 1);
    }
  }

  /** In every run: an answer settles the pending approval it names if that belongs to the socket's connection,
      an abort settles any that is not settled yet, and each does nothing else. */
  lemma ApprovalsAreSettled(events: seq<Event>, k: nat)
    requires k < |Run(events).approvals|
    ensures var s, t, u := Run(events), Run(events + [Answer(k)]), Run(events + [Abort(k)]);
            var a := s.approvals[k];
            var settled := s.(approvals := s.approvals[k := Approval(a.owner, false, true, 1)]);
            && t == (if !a.settled && s.conn == Some(a.owner) then settled else s)
            && u == (if !a.settled then settled else s)
  {
    RunOneMore(events, Answer(k));
    RunOneMore(events, Abort(k));
    AlwaysOnce(events);
    hide Run;
    ItIsSettled(Run(events), k);
  }

  lemma ItIsSettled(s: Socket, k: nat)
    requires ApprovalsOnce(s) && k < |s.approvals|
    ensures var a := s.approvals[k];
            var settled := s.(approvals := s.approvals[k := Approval(a.owner, false, true, 1)]);
            && Step(s, Answer(k)) == (if !a.settled && s.conn == Some(a.owner) then settled else s)
            && Step(s, Abort(k)) == (if !a.settled then settled else s)
  {
    assert s.approvals[k := s.approvals[k]] == s.approvals;
  }
}
