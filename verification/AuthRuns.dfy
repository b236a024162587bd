/** What every run of the authentication manager keeps, and when. */
module AuthRuns {
  import opened Basics
  import opened Auth

  // ---- runs ----

  /** The manager and every action it has returned. */
  datatype System = System(m: Manager, log: seq<Action>)

  function Advance(s: System, e: Event): System {
    System(Step(s.m, e).0, s.log + Step(s.m, e).1)
  }

  function Run(events: seq<Event>): System {
    if events == [] then System(FRESH, []) else Advance(Run(events[..|events| - 1]), events[|events| - 1])
  }

  function Finishes(log: seq<Action>, f: Flow): nat {
    if log == [] then 0
    else Finishes(log[..|log| - 1], f) + (if log[|log| - 1].Finished? && log[|log| - 1].of == f then 1 else 0)
  }

  /** Finishes already returned and still queued. */
  function Total(s: System, f: Flow): nat { Finishes(s.log, f) + Finishes(s.m.queued, f) }

  lemma {:induction false} FinishesAppend(a: seq<Action>, b: seq<Action>, f: Flow)
    ensures Finishes(a + b, f) == Finishes(a, f) + Finishes(b, f)
  {
    if b == [] {
      assert a + b == a;
    } else {
      assert (a + b)[..|a + b| - 1] == a + b[..|b| - 1];
      FinishesAppend(a, b[..|b| - 1], f);
    }
  }

  lemma FinishesOfOne(x: Action, f: Flow)
    ensures Finishes([x], f) == if x.Finished? && x.of == f then 1 else 0
  {
    assert [x][..0] == [];
    assert Finishes([x][..0], f) == 0;
  }

  // ---- the invariant ----

  /** A pending outcome is a success, belongs to the active flow and has a deadline. */
  predicate Owned(m: Manager) {
    m.pending.Some? ==>
      m.active == Some(m.pending.value.flow) && m.refreshDeadline.Some? && m.pending.value.outcome == Succeeded
  }

  ghost predicate Once(s: System) {
    && (forall f: Flow :: Total(s, f) <= 1)
    && (forall f: Flow :: Total(s, f) > 0 ==> f < s.m.nextId && Started(f) in s.log)
    && (s.m.active.Some? ==>
          var f := s.m.active.value;
          f < s.m.nextId && Started(f) in s.log && Total(s, f) == 0)
  }

  ghost predicate Inv(s: System) { Owned(s.m) && Once(s) }

  /** While an outcome is pending no reply or cancellation of its flow fails to be sent, and the helper does
      not take the outcome back. */
  predicate Orderly(m: Manager, e: Event) {
    m.pending.Some? ==>
      match e
      case Reply(flow, sent) => flow == m.pending.value.flow ==> m.helper && sent
      case Cancel(sent) => m.helper && sent
      case HelperSays(r, _) =>
        m.helper && m.queued == [] ==> !(r.Result? && r.of == m.pending.value.flow && !r.committed)
      case _ => true
  }

  predicate AllOrderly(events: seq<Event>) {
    events == [] ||
    (AllOrderly(events[..|events| - 1]) && Orderly(Run(events[..|events| - 1]).m, events[|events| - 1]))
  }

  lemma OwnedStep(m: Manager, e: Event)
    requires Owned(m)
    ensures Owned(Step(m, e).0) <==> Orderly(m, e)
  {
  }

  /** A change of session empties the queue. */
  predicate Clears(m: Manager, e: Event) {
    && e.Configure? && Invalid(e.context, e.sdk) == None && !(m.context == Some(e.context) && m.helper)
    && m.context.Some? && m.context.value.sessionId != e.context.sessionId
  }

  /** The shapes of a step: what it returns and queues, and what then is active. */
  datatype Form = Quiet | Starting | Refused | Ending | Reconfigured | Taking

  ghost predicate HasForm(form: Form, m: Manager, e: Event, t: Manager, acts: seq<Action>) {
    match form
    case Quiet =>
      && NoFinish(acts) && t.queued == m.queued && t.active == m.active && t.nextId >= m.nextId
      && !Clears(m, e)
    case Starting =>
      && e.Start? && m.active == None && t.queued == m.queued && t.nextId > m.nextId
      && acts == [Started(m.nextId)] && t.active == Some(m.nextId)
    case Refused =>
      && e.Start? && m.active == None && t.queued == m.queued && t.nextId > m.nextId
      && acts == [Started(m.nextId), Finished(m.nextId, Failed)] && t.active == None
    case Ending =>
      && m.active.Some? && t.active == None && t.nextId == m.nextId && t.queued == m.queued && !e.Configure?
      && OneFinish(acts, m.active.value)
    case Reconfigured =>
      && e.Configure? && acts == [] && t.active == None && t.nextId >= m.nextId
      && t.queued == (if Clears(m, e) then [] else m.queued) + FinishOf(m.active, Unknown)
    case Taking =>
      && e.TakeQueued? && m.queued != [] && acts == [m.queued[0]] && t.queued == m.queued[1..]
      && t.active == m.active && t.nextId == m.nextId
  }

  /** The flow's finish comes last, and is the only one. */
  predicate OneFinish(acts: seq<Action>, f: Flow) {
    var n := |acts|;
    n > 0 && acts[n - 1].Finished? && acts[n - 1].of == f && NoFinish(acts[..n - 1])
  }

  predicate NoFinish(acts: seq<Action>) { forall a <- acts :: !a.Finished? }

  /** Every step has one of these forms. */
  lemma StepHasForm(m: Manager, e: Event) returns (form: Form)
    requires Owned(m) && m.nextId < U64_MAX
    ensures HasForm(form, m, e, Step(m, e).0, Step(m, e).1)
  {
    hide Step, HasForm, Owned;
    match e
    case Configure(c, sdk, spawned, now) => form := ConfiguredForm(m, e);
    case HelperSays(r, now) => form := RecordedForm(m, r, now);
    case Expire(now) => form := ExpiredForm(m, now);
    case _ => form := PlainForm(m, e);
  }

  lemma PlainForm(m: Manager, e: Event) returns (form: Form)
    requires !e.Configure? && !e.HelperSays? && !e.Expire? && m.nextId < U64_MAX && Owned(m)
    ensures HasForm(form, m, e, Step(m, e).0, Step(m, e).1)
  {
    match e
    case HelperLost => form := if m.helper && m.queued == [] && m.active.Some? then Ending else Quiet;
    case TakeQueued => form := if m.queued == [] then Quiet else Taking;
    case Start(sent) =>
      form := if m.active.Some? then Quiet else if m.helper && sent then Starting else Refused;
    case Reply(flow, sent) => form := if m.active == Some(flow) && !(m.helper && sent) then Ending else Quiet;
    case Cancel(sent) => form := if m.active.Some? && !(m.helper && sent) then Ending else Quiet;
    case Control(flow, success) => form := if PendingFor(m, flow) then Ending else Quiet;
    case Get(query, sent, now) => form := Quiet;
    case Wake(now) => form := Quiet;
  }

  lemma RecordedForm(m: Manager, r: HelperRecord, now: nat) returns (form: Form)
    ensures var (t, acts) := Step(m, HelperSays(r, now)); HasForm(form, m, HelperSays(r, now), t, acts)
  {
    form := if m.helper && m.queued == [] && r.Result? && m.active == Some(r.of) && !r.committed then Ending else Quiet;
  }

  lemma ConfiguredForm(m: Manager, e: Event) returns (form: Form)
    requires e.Configure?
    ensures HasForm(form, m, e, Step(m, e).0, Step(m, e).1)
  {
    var same := Invalid(e.context, e.sdk).Some? || (m.context == Some(e.context) && m.helper);
    form := if same then Quiet else Reconfigured;
  }

  lemma ExpiredForm(m: Manager, now: nat) returns (form: Form)
    requires Owned(m)
    ensures HasForm(form, m, Expire(now), Step(m, Expire(now)).0, Step(m, Expire(now)).1)
  {
    CatalogExpiredFrame(m, now);
    hide CatalogExpired;
    var listed, acts := CatalogExpired(m, now), Expired(m, now).1;
    if RefreshExpired(listed.0, now).1 == [] {
      assert acts == listed.1;
      form := Quiet;
    } else {
      assert acts[..|acts| - 1] == listed.1;
      form := Ending;
    }
  }

  lemma CatalogExpiredFrame(m: Manager, now: nat)
    ensures var (t, acts) := CatalogExpired(m, now); NoFinish(acts) && t == m.(catalog := t.catalog)
  {
  }

  lemma {:induction false} NoFinishCounts(acts: seq<Action>, f: Flow)
    requires NoFinish(acts)
    ensures Finishes(acts, f) == 0
  {
    if acts != [] {
      NoFinishCounts(acts[..|acts| - 1], f);
    }
  }

  lemma OneFinishCounts(acts: seq<Action>, f: Flow, g: Flow)
    requires OneFinish(acts, f)
    ensures Finishes(acts, g) == if g == f then 1 else 0
  {
    NoFinishCounts(acts[..|acts| - 1], g);
  }

  /** The flow a step brings to its end: the active one, or one that could not even be sent. */
  predicate Ends(m: Manager, t: Manager, acts: seq<Action>, f: Flow) {
    t.active == None && (m.active == Some(f) || acts == [Started(f), Finished(f, Failed)])
  }

  /** The finishes of a flow are conserved: one more when the step ends it, fewer only when the queue is
      emptied. */
  lemma TotalAfter(s: System, t: System, acts: seq<Action>, e: Event, form: Form, f: Flow)
    requires t.log == s.log + acts && HasForm(form, s.m, e, t.m, acts)
    ensures Total(t, f) ==
            (if Clears(s.m, e) then Finishes(s.log, f) else Total(s, f)) + (if Ends(s.m, t.m, acts, f) then 1 else 0)
  {
    FinishesAppend(s.log, acts, f);
    ActsCounted(s.m, e, t.m, acts, form, f);
  }

  lemma ActsCounted(m: Manager, e: Event, t: Manager, acts: seq<Action>, form: Form, f: Flow)
    requires HasForm(form, m, e, t, acts)
    ensures Finishes(acts, f) + Finishes(t.queued, f) ==
            (if Clears(m, e) then 0 else Finishes(m.queued, f)) + (if Ends(m, t, acts, f) then 1 else 0)
  {
    assert Finishes([], f) == 0;
    hide Finishes, Clears;
    match form
    case Taking => TakingCounted(m.queued, f);
    case Quiet => NoFinishCounts(acts, f);
    case Starting => NoFinishCounts(acts, f);
    case Reconfigured =>
      QueuedCounted(m, f);
      assert [] + FinishOf(m.active, Unknown) == FinishOf(m.active, Unknown);
    case Ending => OneFinishCounts(acts, m.active.value, f);
    case Refused => RefusedCounted(m.nextId, f);
  }

  lemma TakingCounted(queued: seq<Action>, f: Flow)
    requires queued != []
    ensures Finishes([queued[0]], f) + Finishes(queued[1..], f) == Finishes(queued, f)
  {
    FinishesAppend([queued[0]], queued[1..], f);
    assert [queued[0]] + queued[1..] == queued;
  }

  lemma RefusedCounted(flow: Flow, f: Flow)
    ensures Finishes([Started(flow), Finished(flow, Failed)], f) == if f == flow then 1 else 0
  {
    var acts := [Started(flow), Finished(flow, Failed)];
    assert acts[..1] == [Started(flow)];
    OneFinishCounts(acts, flow, f);
  }

  lemma QueuedCounted(m: Manager, f: Flow)
    ensures var ended := FinishOf(m.active, Unknown);
            var more := if m.active == Some(f) then 1 else 0;
            && Finishes(ended, f) == more && Finishes(m.queued + ended, f) == Finishes(m.queued, f) + more
  {
    FinishesAppend(m.queued, FinishOf(m.active, Unknown), f);
    if m.active.Some? {
      FinishesOfOne(Finished(m.active.value, Unknown), f);
    }
  }

  lemma OnceKept(s: System, t: System, acts: seq<Action>, e: Event, form: Form)
    requires Once(s) && t.log == s.log + acts && HasForm(form, s.m, e, t.m, acts)
    ensures Once(t)
  {
    hide Total;
    forall f: Flow ensures Total(t, f) <= 1 && (Total(t, f) > 0 ==> f < t.m.nextId && Started(f) in t.log) {
      TotalAfter(s, t, acts, e, form, f);
      InLogFirst(s, f);
      EndsActiveOrRefused(form, s.m, e, t.m, acts, f);
      assert acts != [] ==> acts[0] in t.log;
    }
    if t.m.active.Some? {
      TotalAfter(s, t, acts, e, form, t.m.active.value);
      InLogFirst(s, t.m.active.value);
    }
  }

  lemma EndsActiveOrRefused(form: Form, m: Manager, e: Event, t: Manager, acts: seq<Action>, f: Flow)
    requires HasForm(form, m, e, t, acts)
    ensures Ends(m, t, acts, f) ==> m.active == Some(f) || (form.Refused? && f == m.nextId && acts[0] == Started(f))
  {
    assert acts == [Started(f), Finished(f, Failed)] ==> acts[0] == Started(f) && acts[1] == Finished(f, Failed);
  }

  lemma InLogFirst(s: System, f: Flow)
    ensures Finishes(s.log, f) <= Total(s, f)
  {
  }

  lemma StepKeeps(s: System, e: Event)
    requires Inv(s) && s.m.nextId < U64_MAX && Orderly(s.m, e)
    ensures Inv(Advance(s, e))
  {
    OwnedStep(s.m, e);
    var form := StepHasForm(s.m, e);
    OnceKept(s, Advance(s, e), Step(s.m, e).1, e, form);
  }

  lemma IdsGrowByOne(m: Manager, e: Event)
    ensures m.nextId <= Step(m, e).0.nextId <= m.nextId + 1
  {
  }

  lemma {:induction false} RunKeeps(events: seq<Event>)
    requires AllOrderly(events) && |events| + 1 < U64_MAX
    ensures Inv(Run(events)) && Run(events).m.nextId <= |events| + 1
  {
    if events != [] {
      var before := events[..|events| - 1];
      RunKeeps(before);
      StepKeeps(Run(before), events[|events| - 1]);
      IdsGrowByOne(Run(before).m, events[|events| - 1]);
    }
  }

  // ---- what every orderly run keeps ----

  /** Each flow is finished at most once, only after it was started, and never while it is active; a pending
      outcome belongs to the active flow. */
  lemma EachFlowFinishesOnce(events: seq<Event>)
    requires AllOrderly(events) && |events| + 1 < U64_MAX
    ensures var s := Run(events);
            && (forall f: Flow :: Finishes(s.log, f) <= 1)
            && (forall f: Flow :: Finishes(s.log, f) > 0 ==> Started(f) in s.log && s.m.active != Some(f))
            && (s.m.pending.Some? ==> s.m.active == Some(s.m.pending.value.flow))
  {
    RunKeeps(events);
    var s := Run(events);
    forall f: Flow ensures Finishes(s.log, f) <= Total(s, f) {}
  }

  /** The condition is exact. After any orderly run, a disorderly step finishes the flow whose outcome is
      pending, and when the refresh then times out the same flow is finished again. */
  lemma DisorderFinishesTwice(events: seq<Event>, e: Event)
    requires AllOrderly(events) && |events| + 1 < U64_MAX
    requires !Orderly(Run(events).m, e)
    ensures var m := Run(events).m;
            Owned(m) && m.pending.Some?
            && Finishes(Run(events + [e, Expire(m.refreshDeadline.value)]).log, m.pending.value.flow) == 2
  {
    RunKeeps(events);
    var s := Run(events);
    RunTwoMore(events, e, Expire(s.m.refreshDeadline.value));
    DisorderFrom(s, e);
  }

  lemma RunTwoMore(events: seq<Event>, e: Event, last: Event)
    ensures Run(events + [e, last]) == Advance(Advance(Run(events), e), last)
  {
    var one, two := events + [e], events + [e, last];
    assert one[..|one| - 1] == events;
    assert two[..|two| - 1] == one;
  }

  lemma DisorderFrom(s: System, e: Event)
    requires Inv(s) && !Orderly(s.m, e)
    ensures Finishes(Advance(Advance(s, e), Expire(s.m.refreshDeadline.value)).log, s.m.pending.value.flow) == 2
  {
    var f := s.m.pending.value.flow;
    DisorderlyStep(s.m, e);
    var first, second := Step(s.m, e).1, Step(Step(s.m, e).0, Expire(s.m.refreshDeadline.value)).1;
    OneFinishCounts(first, f, f);
    OneFinishCounts(second, f, f);
    FinishesAppend(s.log, first, f);
    FinishesAppend(s.log + first, second, f);
  }

  lemma DisorderlyStep(m: Manager, e: Event)
    requires Owned(m) && !Orderly(m, e)
    ensures var (t, acts) := Step(m, e);
            && m.pending.Some? && t.pending == m.pending && t.refreshDeadline == m.refreshDeadline
            && OneFinish(acts, m.pending.value.flow)
            && OneFinish(Step(t, Expire(m.refreshDeadline.value)).1, m.pending.value.flow)
  {
    DueRefreshFinishes(Step(m, e).0, m.refreshDeadline.value);
  }

  lemma DueRefreshFinishes(m: Manager, now: nat)
    requires m.pending.Some? && m.refreshDeadline == Some(now)
    ensures OneFinish(Expired(m, now).1, m.pending.value.flow) && Expired(m, now).0.active == None
    ensures Expired(m, now).1[|Expired(m, now).1| - 1] == Finished(m.pending.value.flow, Failed)
    ensures Expired(m, now).0.queued == m.queued
  {
    CatalogExpiredFrame(m, now);
    hide CatalogExpired;
    var acts := Expired(m, now).1;
    assert acts[..|acts| - 1] == CatalogExpired(m, now).1;
  }

  /** A disorderly run: the credential is committed, then the cancellation cannot be sent. */
  lemma ADisorderlyRun(c: Context)
    requires Invalid(c, true) == None
    ensures var events := [Configure(c, true, true, 0), Start(true), HelperSays(Result(1, true, true, Succeeded), 0)];
            AllOrderly(events) && !Orderly(Run(events).m, Cancel(false)) && Run(events).m.pending.value.flow == 1
  {
    var events := [Configure(c, true, true, 0), Start(true), HelperSays(Result(1, true, true, Succeeded), 0)];
    CommittedRun(c);
    SteadyIsOrderly(events);
  }

  // ---- that a flow's finish is not lost ----

  /** A change of session while the flow's finish is still queued. */
  predicate Drops(m: Manager, e: Event, f: Flow) { Clears(m, e) && Finishes(m.queued, f) > 0 }

  predicate NeverDropped(events: seq<Event>, f: Flow) {
    events == [] ||
    (NeverDropped(events[..|events| - 1], f) && !Drops(Run(events[..|events| - 1]).m, events[|events| - 1], f))
  }

  /** The flow is active, or one finish of it was returned or is queued. */
  predicate Kept(s: System, f: Flow) { s.m.active == Some(f) || Total(s, f) == 1 }

  /** One step of a flow that was started: kept until it is dropped, and then lost for good. */
  lemma KeptStep(s: System, e: Event, f: Flow)
    requires Inv(s) && s.m.nextId < U64_MAX && Started(f) in s.log && f < s.m.nextId
    ensures Kept(Advance(s, e), f) <==> Kept(s, f) && !Drops(s.m, e, f)
  {
    hide Step, HasForm, Owned, Clears, Ends, Total, Finishes;
    var form := StepHasForm(s.m, e);
    var t, acts := Advance(s, e), Step(s.m, e).1;
    TotalAfter(s, t, acts, e, form, f);
    ActiveAfter(s.m, e, t.m, acts, form, f);
    TotalIs(s, f);
  }

  lemma TotalIs(s: System, f: Flow)
    ensures Total(s, f) == Finishes(s.log, f) + Finishes(s.m.queued, f)
  {
  }

  /** A flow that was active stays so unless the step ends it; no other old flow becomes active or ends. */
  lemma ActiveAfter(m: Manager, e: Event, t: Manager, acts: seq<Action>, form: Form, f: Flow)
    requires HasForm(form, m, e, t, acts) && f < m.nextId
    ensures t.active == Some(f) <==> m.active == Some(f) && !Ends(m, t, acts, f)
    ensures Ends(m, t, acts, f) ==> m.active == Some(f)
  {
    hide Clears, OneFinish, NoFinish;
    EndsActiveOrRefused(form, m, e, t, acts, f);
  }

  /** A flow the step starts is active or already finished. */
  lemma StartedIsKept(s: System, e: Event, f: Flow)
    requires Inv(s) && s.m.nextId < U64_MAX && OnlyFinishes(s.m.queued)
    requires Started(f) !in s.log && Started(f) in Advance(s, e).log
    ensures Kept(Advance(s, e), f) && !Drops(s.m, e, f)
  {
    var form := StepHasForm(s.m, e);
    var t, acts := Advance(s, e), Step(s.m, e).1;
    StartsOne(s.m, e, f);
    TotalAfter(s, t, acts, e, form, f);
    hide Step, Finishes;
    assert Total(s, f) == 0;
  }

  lemma StartsOne(m: Manager, e: Event, f: Flow)
    requires OnlyFinishes(m.queued) && Started(f) in Step(m, e).1
    ensures e.Start? && m.active == None && f == m.nextId
    ensures Step(m, e).0.active == Some(f) || Step(m, e).1 == [Started(f), Finished(f, Failed)]
  {
    match e
    case Expire(now) => ExpiringAsksNothing(m, now);
    case TakeQueued => NotQueued(m.queued, f);
    case _ =>
  }

  lemma {:induction false} UnstartedIsNotDropped(events: seq<Event>, f: Flow)
    requires AllOrderly(events) && |events| + 1 < U64_MAX && Started(f) !in Run(events).log
    ensures NeverDropped(events, f)
  {
    if events != [] {
      var before := events[..|events| - 1];
      UnstartedIsNotDropped(before, f);
      RunKeeps(before);
      assert Total(Run(before), f) == 0;
    }
  }

  /** Conservation. In every orderly run a flow that was started is active or has exactly one finish among what
      was returned and what is queued, never both, if and only if the session did not change while its finish was
      queued. */
  lemma {:induction false} FinishesAreConserved(events: seq<Event>, f: Flow)
    requires AllOrderly(events) && |events| + 1 < U64_MAX && Started(f) in Run(events).log
    ensures (Run(events).m.active == Some(f) || Total(Run(events), f) == 1) <==> NeverDropped(events, f)
    ensures Total(Run(events), f) <= (if Run(events).m.active == Some(f) then 0 else 1)
  {
    RunKeeps(events);
    if events != [] {
      var before, e := events[..|events| - 1], events[|events| - 1];
      RunKeeps(before);
      QueueHoldsFinishes(before);
      if Started(f) in Run(before).log {
        FinishesAreConserved(before, f);
        StartedIsOld(before, f);
        KeptStep(Run(before), e, f);
      } else {
        UnstartedIsNotDropped(before, f);
        StartedIsKept(Run(before), e, f);
      }
    }
  }

  lemma {:induction false} StartedIsOld(events: seq<Event>, f: Flow)
    requires |events| + 1 < U64_MAX && Started(f) in Run(events).log
    ensures f < Run(events).m.nextId <= |events| + 1
  {
    CatalogWaitsWithDeadline(events);
    if events != [] {
      var before, e := events[..|events| - 1], events[|events| - 1];
      IdsGrowByOne(Run(before).m, e);
      QueueHoldsFinishes(before);
      CatalogWaitsWithDeadline(before);
      if Started(f) in Run(before).log {
        StartedIsOld(before, f);
      } else {
        StartsOne(Run(before).m, e, f);
      }
    }
  }

  /** A run in which a finish is lost: a context change queues it and a change of session empties the queue. */
  lemma ALostFinish(c: Context, x: Context)
    requires Invalid(c, true) == None && Invalid(x, true) == None && c.sessionId != x.sessionId
    ensures var d := c.(trusted := !c.trusted);
            var s := Run([Configure(c, true, true, 0), Start(true), Configure(d, true, true, 0),
                          Configure(x, true, true, 0)]);
            s.log == [Started(1)] && s.m.queued == [] && s.m.active == None
  {
    var d := c.(trusted := !c.trusted);
    var es := [Configure(c, true, true, 0), Start(true), Configure(d, true, true, 0), Configure(x, true, true, 0)];
    assert es[..3][..2] == es[..2] && es[..2][..1] == es[..1] && es[..1][..0] == [] && es[..|es| - 1] == es[..3];
    var ready := FRESH.(helper := true, context := Some(c));
    assert Run(es[..1]) == Advance(System(FRESH, []), es[0]) == System(ready, []);
    assert Run(es[..2]) == System(ready.(active := Some(1), nextId := 2), [Started(1)]);
    var queued := ready.(context := Some(d), nextId := 2, queued := [Finished(1, Unknown)]);
    assert Run(es[..3]) == Advance(Run(es[..2]), es[2]) == System(queued, [Started(1)]);
    assert Run(es) == Advance(System(queued, [Started(1)]), es[3]);
  }

  // ---- the outcome of every flow ----

  /** The outcome with which an event ends flow `f`, if it does: the helper's own for a result that commits
      nothing, success or failure for the answer to the refresh, failure for a refresh that took too long and for
      a start that could not be sent, and unknown when a reply or a cancellation could not be sent, the helper was
      lost or the context changed. */
  function EndsWith(m: Manager, e: Event, f: Flow): Option<Outcome> {
    match e
    case HelperSays(Result(flow, false, _, outcome), _) =>
      if flow == f && m.active == Some(f) && m.helper && m.queued == [] then Some(outcome) else None
    case Control(flow, success) =>
      if flow == f && PendingFor(m, f) then Some(if success then Succeeded else Failed) else None
    case Expire(now) =>
      if PendingFor(m, f) && m.refreshDeadline.Some? && m.refreshDeadline.value <= now then Some(Failed) else None
    case Start(sent) => if m.active == None && f == m.nextId && !(m.helper && sent) then Some(Failed) else None
    case Reply(flow, sent) =>
      if flow == f && m.active == Some(f) && !(m.helper && sent) then Some(Unknown) else None
    case Cancel(sent) => if m.active == Some(f) && !(m.helper && sent) then Some(Unknown) else None
    case HelperLost => if m.active == Some(f) && m.helper && m.queued == [] then Some(Unknown) else None
    case Configure(c, sdk, _, _) =>
      if m.active == Some(f) && Invalid(c, sdk) == None && !(m.context == Some(c) && m.helper) then Some(Unknown)
      else None
    case _ => None
  }

  predicate PendingFor(m: Manager, f: Flow) { m.pending.Some? && m.pending.value.flow == f }

  /** What waits for the refresh is a success. */
  predicate PendingSucceeds(m: Manager) { m.pending.Some? ==> m.pending.value.outcome == Succeeded }

  lemma StepPendsSuccess(m: Manager, e: Event)
    requires PendingSucceeds(m)
    ensures PendingSucceeds(Step(m, e).0)
  {
  }

  lemma {:induction false} RunPendsSuccess(events: seq<Event>)
    ensures PendingSucceeds(Run(events).m)
  {
    if events != [] {
      RunPendsSuccess(events[..|events| - 1]);
      StepPendsSuccess(Run(events[..|events| - 1]).m, events[|events| - 1]);
    }
  }

  /** A finish is queued already, or is this event's. */
  lemma FinishIsOfItsEvent(m: Manager, e: Event, a: Action)
    requires PendingSucceeds(m) && a.Finished? && (a in Step(m, e).1 || a in Step(m, e).0.queued)
    ensures a in m.queued || EndsWith(m, e, a.of) == Some(a.outcome)
  {
    if a in Step(m, e).1 {
      hide Step, EndsWith;
      ReturnedForCause(m, e, a);
    } else if a !in m.queued {
      OnlyReconfiguringQueues(m, e, a);
    }
  }

  lemma OnlyReconfiguringQueues(m: Manager, e: Event, a: Action)
    requires a in Step(m, e).0.queued && a !in m.queued && a.Finished?
    ensures EndsWith(m, e, a.of) == Some(a.outcome)
  {
    hide Invalid;
    match e
    case Expire(now) => hide CatalogExpired; CatalogExpiredFrame(m, now);
    case _ =>
  }

  lemma EventFinishes(m: Manager, e: Event, f: Flow)
    requires PendingSucceeds(m) && EndsWith(m, e, f).Some?
    ensures var (t, acts) := Step(m, e);
            var a := Finished(f, EndsWith(m, e, f).value);
            a in acts || a in t.queued
  {
    if e.Configure? {
      ReconfiguringFinishes(m, e, f);
    } else {
      hide Step, EndsWith;
      ReturnedForCause(m, e, Finished(f, EndsWith(m, e, f).value));
    }
  }

  lemma ReconfiguringFinishes(m: Manager, e: Event, f: Flow)
    requires e.Configure? && EndsWith(m, e, f).Some?
    ensures Finished(f, EndsWith(m, e, f).value) in Step(m, e).0.queued
  {
    hide Invalid;
  }

  ghost predicate EndedAt(events: seq<Event>, k: nat, f: Flow, outcome: Outcome)
    requires k < |events|
  {
    EndsWith(Run(events[..k]).m, events[k], f) == Some(outcome)
  }

  /** In every run, whatever finish was returned or is queued, for whichever flow, has the outcome of an event
      that ended that flow; */
  lemma {:induction false} EveryFinishHasItsCause(events: seq<Event>, a: Action)
    requires a.Finished? && (a in Run(events).log || a in Run(events).m.queued)
    ensures exists k | 0 <= k < |events| :: EndedAt(events, k, a.of, a.outcome)
  {
    var n := |events| - 1;
    var before, e := events[..n], events[n];
    assert Run(events) == Advance(Run(before), e);
    RunPendsSuccess(before);
    hide Run, Step;
    if a in Run(before).log || a in Run(before).m.queued {
      EveryFinishHasItsCause(before, a);
      var k :| 0 <= k < n && EndedAt(before, k, a.of, a.outcome);
      assert events[..k] == before[..k] && EndedAt(events, k, a.of, a.outcome);
    } else {
      FinishIsOfItsEvent(Run(before).m, e, a);
      assert EndedAt(events, n, a.of, a.outcome);
    }
  }

  /** and every event that ends a flow finishes it so. */
  lemma EveryEndIsFinished(events: seq<Event>, e: Event, f: Flow)
    requires EndsWith(Run(events).m, e, f).Some?
    ensures var s, a := Run(events + [e]), Finished(f, EndsWith(Run(events).m, e, f).value);
            a in s.log || a in s.m.queued
  {
    assert (events + [e])[..|events|] == events;
    RunPendsSuccess(events);
    EventFinishes(Run(events).m, e, f);
  }

  predicate Succeeds(e: Event, f: Flow) {
    || (e.HelperSays? && e.record.Result? && e.record.of == f && !e.record.committed && e.record.outcome == Succeeded)
    || e == Control(f, true)
  }

  /** A flow is said to have succeeded only after the helper's own success that committed nothing, or after its
      refresh succeeded. */
  lemma SucceedsOnlySo(events: seq<Event>, f: Flow)
    requires Finished(f, Succeeded) in Run(events).log || Finished(f, Succeeded) in Run(events).m.queued
    ensures exists k | 0 <= k < |events| :: Succeeds(events[k], f)
  {
    EveryFinishHasItsCause(events, Finished(f, Succeeded));
    hide Run, EndsWith;
    var k :| 0 <= k < |events| && EndedAt(events, k, f, Succeeded);
    SuccessNeeds(Run(events[..k]).m, events[k], f);
  }

  lemma SuccessNeeds(m: Manager, e: Event, f: Flow)
    requires EndsWith(m, e, f) == Some(Succeeded)
    ensures Succeeds(e, f)
  {
  }

  // ---- what each action is returned for ----

  /** The helper is listened to only when nothing is queued. */
  predicate Listens(m: Manager) { m.helper && m.queued == [] }

  /** An event's own reasons to return an action, apart from taking it from the queue. */
  predicate Causes(m: Manager, e: Event, a: Action) {
    match a
    case Finished(f, outcome) => !e.Configure? && EndsWith(m, e, f) == Some(outcome)
    case Started(f) => e.Start? && m.active == None && f == m.nextId
    case BusyStarted => e.Start? && m.active.Some?
    case BusyFinished => e.Start? && m.active.Some?
    case Shown(f) => e.HelperSays? && Listens(m) && e.record == Interaction(f) && m.active == Some(f)
    case RefreshRuntime(f) =>
      e.HelperSays? && Listens(m) && m.active == Some(f) && e.record.Result? && e.record.of == f && e.record.committed
    case Listed(query, true) =>
      && e.HelperSays? && Listens(m) && m.catalog.waiting.Some?
      && e.record == Listing(m.catalog.waiting.value.id, query)
    case Listed(query, false) =>
      || (e.Get? && e.query == query && !(m.helper && e.sent))
      || (e.Expire? && m.catalog.waiting.Some? && m.catalog.waiting.value.query == query
          && m.catalog.deadline.Some? && m.catalog.deadline.value <= e.now)
    case Heartbeat => e.HelperSays? && Listens(m) && e.record == ReadyWith(1)
    case Fatal =>
      || (e.HelperSays? && Listens(m) && (e.record == Malformed || (e.record.ReadyWith? && e.record.protocol != 1)))
      || (e.HelperLost? && Listens(m) && m.active == None)
    case Ignore => e.HelperSays? && Listens(m) && Unasked(m, e.record)
    case Deadline => e.Wake? && m.queued == [] && Due(m, e.now)
  }

  /** About a flow that is not active, or a request nobody waits for. */
  predicate Unasked(m: Manager, r: HelperRecord) {
    match r
    case Interaction(f) => m.active != Some(f)
    case Result(f, _, _, _) => m.active != Some(f)
    case Listing(id, _) => m.catalog.waiting.Some? ==> m.catalog.waiting.value.id != id
    case _ => false
  }

  lemma ReturnedForCause(m: Manager, e: Event, a: Action)
    requires PendingSucceeds(m)
    ensures a in Step(m, e).1 ==> Causes(m, e, a) || (e == TakeQueued && m.queued != [] && a == m.queued[0])
    ensures Causes(m, e, a) ==> a in Step(m, e).1
  {
    match e
    case Expire(now) => ExpiryForCause(m, now, a);
    case HelperSays(r, now) => RecordForCause(m, r, now, a);
    case _ => hide Expired, Recorded, Configured;
  }

  lemma RecordForCause(m: Manager, r: HelperRecord, now: nat, a: Action)
    ensures a in Step(m, HelperSays(r, now)).1 <==> Causes(m, HelperSays(r, now), a)
  {
  }

  lemma ExpiryForCause(m: Manager, now: nat, a: Action)
    requires PendingSucceeds(m)
    ensures a in Expired(m, now).1 <==> Causes(m, Expire(now), a)
  {
    CatalogExpiredFrame(m, now);
    assert a in Expired(m, now).1 <==>
           a in CatalogExpired(m, now).1 || a in RefreshExpired(CatalogExpired(m, now).0, now).1;
  }

  /** In every run an event returns exactly the actions it is a reason for, or the oldest queued one. */
  lemma EachActionHasItsCause(events: seq<Event>, e: Event, a: Action)
    ensures var s, t := Run(events), Run(events + [e]);
            && s.log <= t.log
            && (a in t.log[|s.log|..] <==>
                  if e == TakeQueued then s.m.queued != [] && a == s.m.queued[0] else Causes(s.m, e, a))
  {
    assert (events + [e])[..|events|] == events;
    RunPendsSuccess(events);
    var s := Run(events);
    assert (s.log + Step(s.m, e).1)[|s.log|..] == Step(s.m, e).1;
    ReturnedForCause(s.m, e, a);
  }

  /** Starting answers in this order: the flow is started, and failed at once if it could not be sent; while one is
      active nothing but its refusal is. */
  lemma StartAnswers(events: seq<Event>, sent: bool)
    ensures var s, t := Run(events), Run(events + [Start(sent)]);
            var f := s.m.nextId;
            t.log == s.log + if s.m.active.Some? then [BusyStarted, BusyFinished]
                             else if s.m.helper && sent then [Started(f)] else [Started(f), Finished(f, Failed)]
  {
    assert (events + [Start(sent)])[..|events|] == events;
  }

  /** A configuration is taken if its protocol is the known one, its paths are absolute and the runtime is there,
      and is refused for the first of these that fails. */
  lemma ConfigurationIsChecked(m: Manager, c: Context, sdk: bool, spawned: bool, now: nat)
    ensures var (t, error) := Configured(m, c, sdk, spawned, now);
            var paths := [c.packageRoot, c.agentDir, c.nodePath, c.cwd];
            && (c.protocol != 1 ==> error == Some(UnsupportedProtocol))
            && (c.protocol == 1 && (exists p <- paths :: !Absolute(p)) ==> error == Some(NotAbsolute))
            && (c.protocol == 1 && (forall p <- paths :: Absolute(p)) && !sdk ==> error == Some(NoSdk))
            && (error.Some? && error.value != NotSpawned ==> t == m)
            && (c.protocol == 1 && (forall p <- paths :: Absolute(p)) && sdk ==>
                  if m.context == Some(c) && m.helper then t == m && error == None
                  else error == (if spawned then None else Some(NotSpawned))
                       && t.context == (if spawned then Some(c) else m.context))
  {
    var paths := [c.packageRoot, c.agentDir, c.nodePath, c.cwd];
    assert paths[0] in paths && paths[1] in paths && paths[2] in paths && paths[3] in paths;
    assert forall p <- paths :: p == c.packageRoot || p == c.agentDir || p == c.nodePath || p == c.cwd;
  }

  /** A configuration that takes effect, and whether it changes the session. */
  predicate Reconfigures(m: Manager, e: Event) {
    e.Configure? && Invalid(e.context, e.sdk) == None && !(m.context == Some(e.context) && m.helper)
  }

  predicate ChangesSession(m: Manager, e: Event) {
    e.Configure? && m.context.Some? && m.context.value.sessionId != e.context.sessionId
  }

  /** A new request for providers, waited for until its timeout. */
  function Awaiting(m: Manager, query: Query, now: nat): Catalog {
    Catalog(Some(query), Some(Request(m.nextId, query)), Some(now + 15_000))
  }

  /** What ends the wait besides another request: the answer to it, or its deadline. */
  predicate WaitIsOver(m: Manager, e: Event) {
    || (e.Expire? && m.catalog.deadline.Some? && m.catalog.deadline.value <= e.now)
    || (e.HelperSays? && Listens(m) && e.record.Listing? && m.catalog.waiting.Some?
        && m.catalog.waiting.value.id == e.record.request)
  }

  /** What is asked and waited for after an event: a request that could be sent; after another configuration of
      the same session the last query, asked again, and of another session none. */
  function CatalogAfter(m: Manager, e: Event): Catalog {
    if e.Get? then if m.helper && e.sent then Awaiting(m, e.query, e.now) else Catalog(Some(e.query), None, None)
    else if Reconfigures(m, e) then
      if ChangesSession(m, e) then NO_CATALOG
      else if e.spawned && m.catalog.last.Some? then Awaiting(m, m.catalog.last.value, e.now)
      else m.catalog
    else if WaitIsOver(m, e) then Catalog(m.catalog.last, None, None)
    else m.catalog
  }

  lemma CatalogFollows(events: seq<Event>, e: Event)
    ensures Run(events + [e]).m.catalog == CatalogAfter(Run(events).m, e)
  {
    assert (events + [e])[..|events|] == events;
    hide Run;
    StepsCatalog(Run(events).m, e);
  }

  lemma StepsCatalog(m: Manager, e: Event)
    ensures Step(m, e).0.catalog == CatalogAfter(m, e)
  {
    match e
    case Configure(c, sdk, spawned, now) => ConfiguresCatalog(m, e);
    case HelperSays(r, now) => hide Configured, Expired, Fetched;
    case Expire(now) => hide Configured, Recorded, Fetched;
    case _ => hide Configured, Recorded, Expired;
  }

  lemma ConfiguresCatalog(m: Manager, e: Event)
    requires e.Configure?
    ensures Step(m, e).0.catalog == CatalogAfter(m, e)
  {
    hide Invalid;
  }

  /** Something could not be sent to the helper. */
  predicate Unsent(m: Manager, e: Event) {
    match e
    case Get(_, sent, _) => !sent
    case Start(sent) => !sent && m.active == None
    case Reply(flow, sent) => !sent && m.active == Some(flow)
    case Cancel(sent) => !sent && m.active.Some?
    case _ => false
  }

  /** In every run the helper, once configured, is there until it is lost or something could not be sent to it,
      and comes back only with another configuration. */
  lemma HelperComesAndGoes(events: seq<Event>, e: Event)
    ensures var m, t := Run(events).m, Run(events + [e]).m;
            && (m.helper ==> (!t.helper <==> Unsent(m, e) || (e == HelperLost && m.queued == [])))
            && (!m.helper ==> (t.helper <==> e.Configure? && Invalid(e.context, e.sdk) == None && e.spawned))
  {
    assert (events + [e])[..|events|] == events;
  }

  // ---- how a committed outcome ends ----

  /** Orderly, and no refresh answer for another flow comes while an outcome is pending. */
  predicate Steady(m: Manager, e: Event) {
    Orderly(m, e) && (m.pending.Some? && e.Control? ==> e.of == m.pending.value.flow)
  }

  predicate AllSteady(events: seq<Event>) {
    events == [] ||
    (AllSteady(events[..|events| - 1]) && Steady(Run(events[..|events| - 1]).m, events[|events| - 1]))
  }

  /** The outcome each of the four causes finishes a committed flow with. */
  function OutcomeOf(cause: Event): Outcome {
    match cause
    case Control(_, success) => if success then Succeeded else Failed
    case Expire(_) => Failed
    case _ => Unknown
  }

  /** The pending flow `f` is finished by its own refresh answer, the refresh's timeout, the helper's loss or a
      change of context, the last through the queue. */
  predicate Concluded(m: Manager, e: Event, f: Flow) {
    var (t, acts) := Step(m, e);
    && PendingFor(m, f) && m.refreshDeadline.Some? && t.active == None
    && match e
       case Control(flow, _) => flow == f && acts == [Finished(f, OutcomeOf(e))]
       case Expire(now) =>
         m.refreshDeadline.value <= now && OneFinish(acts, f) && acts[|acts| - 1] == Finished(f, OutcomeOf(e))
       case HelperLost => acts == [Finished(f, OutcomeOf(e))] && !t.helper
       case Configure(_, _, _, _) =>
         acts == [] && (t.queued == [Finished(f, OutcomeOf(e))] || t.queued == m.queued + [Finished(f, OutcomeOf(e))])
       case _ => false
  }

  /** The exact step condition: the flow goes on waiting or is finished by one of the four causes, unless a
      refresh answer for another flow takes its outcome away and leaves it active. */
  lemma CommittedStep(m: Manager, e: Event)
    requires Owned(m) && m.pending.Some? && Orderly(m, e)
    ensures var f := m.pending.value.flow;
            var t := Step(m, e).0;
            && (PendingFor(t, f) || t.active != Some(f) <==> Steady(m, e))
            && (t.active != Some(f) <==> Concluded(m, e, f))
  {
    match e
    case HelperSays(r, now) => CommittedRecord(m, r, now);
    case Expire(now) => CommittedExpire(m, now);
    case Configure(c, sdk, spawned, now) => CommittedConfigure(m, c, sdk, spawned, now);
    case _ =>
  }

  lemma CommittedExpire(m: Manager, now: nat)
    requires Owned(m) && m.pending.Some?
    ensures var f := m.pending.value.flow;
            var t := Step(m, Expire(now)).0;
            (PendingFor(t, f) && t.active == m.active && !Concluded(m, Expire(now), f))
            || (t.active == None && Concluded(m, Expire(now), f))
  {
    CatalogExpiredFrame(m, now);
    hide CatalogExpired;
    var acts := Expired(m, now).1;
    assert acts != [] && RefreshExpired(CatalogExpired(m, now).0, now).1 != [] ==>
        acts[..|acts| - 1] == CatalogExpired(m, now).1;
  }

  lemma CommittedConfigure(m: Manager, c: Context, sdk: bool, spawned: bool, now: nat)
    requires Owned(m) && m.pending.Some?
    ensures var f := m.pending.value.flow;
            var e := Configure(c, sdk, spawned, now);
            var t := Step(m, e).0;
            (PendingFor(t, f) && t.active == m.active && !Concluded(m, e, f))
            || (t.active == None && Concluded(m, e, f))
  {
    assert [] + FinishOf(m.active, Unknown) == FinishOf(m.active, Unknown);
  }

  lemma CommittedRecord(m: Manager, r: HelperRecord, now: nat)
    requires Owned(m) && m.pending.Some? && Orderly(m, HelperSays(r, now))
    ensures PendingFor(Step(m, HelperSays(r, now)).0, m.pending.value.flow)
    ensures Step(m, HelperSays(r, now)).0.active == m.active
  {
  }

  /** Flow `f` is over, and wherever it was finished it was with outcome `o`. */
  ghost predicate Over(s: System, f: Flow, o: Outcome) {
    && s.m.active != Some(f) && f < s.m.nextId
    && forall a: Action | a in s.log || a in s.m.queued :: a.Finished? && a.of == f ==> a.outcome == o
  }

  lemma OverStays(s: System, e: Event, f: Flow, o: Outcome)
    requires Over(s, f, o) && Owned(s.m) && s.m.nextId < U64_MAX
    ensures Over(Advance(s, e), f, o)
  {
    var t, acts := Advance(s, e), Step(s.m, e).1;
    var form := StepHasForm(s.m, e);
    forall a: Action | (a in acts || a in t.m.queued) && a.Finished? && a.of == f
      ensures a in s.m.queued
    {
      FinishesKnown(s.m, e, t.m, acts, form, a);
    }
  }

  /** A finish is new only for the active flow or one just started. */
  lemma FinishesKnown(m: Manager, e: Event, t: Manager, acts: seq<Action>, form: Form, a: Action)
    requires HasForm(form, m, e, t, acts) && a.Finished? && m.active != Some(a.of) && a.of != m.nextId
    requires a in acts || a in t.queued
    ensures a in m.queued
  {
    match form
    case Ending => OnlyFinishIsOf(acts, m.active.value);
    case _ =>
  }

  lemma OnlyFinishIsOf(acts: seq<Action>, f: Flow)
    requires OneFinish(acts, f)
    ensures forall x <- acts :: x.Finished? ==> x.of == f
  {
    assert acts == acts[..|acts| - 1] + [acts[|acts| - 1]];
  }

  lemma {:induction false} NotCounted(log: seq<Action>, f: Flow, a: Action)
    requires Finishes(log, f) == 0 && a in log
    ensures !(a.Finished? && a.of == f)
  {
    if a != log[|log| - 1] {
      NotCounted(log[..|log| - 1], f, a);
    }
  }

  lemma ConcludedIsOver(s: System, e: Event, f: Flow)
    requires Inv(s) && s.m.nextId < U64_MAX && Concluded(s.m, e, f)
    ensures Over(Advance(s, e), f, OutcomeOf(e))
  {
    IdsGrowByOne(s.m, e);
    ConcludedActs(s.m, e, f);
    hide Step, Finishes, Concluded;
    assert Total(s, f) == 0;
    forall a: Action | a in s.log || a in s.m.queued ensures !(a.Finished? && a.of == f) {
      if a in s.log { NotCounted(s.log, f, a); } else { NotCounted(s.m.queued, f, a); }
    }
  }

  lemma ConcludedActs(m: Manager, e: Event, f: Flow)
    requires Concluded(m, e, f) && Owned(m)
    ensures var (t, acts) := Step(m, e);
            && t.active == None
            && forall a: Action | a in acts || a in t.queued ::
                 a.Finished? && a.of == f ==> a.outcome == OutcomeOf(e) || a in m.queued
  {
    ConcludedEndsSo(m, e, f);
    hide Step, EndsWith, OutcomeOf, Concluded;
    forall a: Action | (a in Step(m, e).1 || a in Step(m, e).0.queued) && a.Finished? && a.of == f
      ensures a.outcome == OutcomeOf(e) || a in m.queued
    {
      FinishIsOfItsEvent(m, e, a);
    }
  }

  lemma ConcludedEndsSo(m: Manager, e: Event, f: Flow)
    requires Concluded(m, e, f) && Owned(m)
    ensures EndsWith(m, e, f).Some? ==> EndsWith(m, e, f).value == OutcomeOf(e)
    ensures Step(m, e).0.active == None
  {
  }

  /** `f` still waits, or step `k` concluded it. */
  ghost predicate Accounted(events: seq<Event>, f: Flow) {
    || PendingFor(Run(events).m, f)
    || exists k | 0 <= k < |events| :: ConcludedAt(events, f, k)
  }

  ghost predicate ConcludedAt(events: seq<Event>, f: Flow, k: nat)
    requires k < |events|
  {
    Concluded(Run(events[..k]).m, events[k], f) && Over(Run(events), f, OutcomeOf(events[k]))
  }

  lemma {:induction false} SteadyIsOrderly(events: seq<Event>)
    requires AllSteady(events)
    ensures AllOrderly(events)
  {
    if events != [] {
      SteadyIsOrderly(events[..|events| - 1]);
    }
  }

  /** In every steady run a flow whose credential was committed still waits for its refresh, or was concluded by
      its refresh answer, the refresh's timeout, the helper's loss or a change of context: whatever finish of it
      was returned or queued has the outcome of that cause. */
  lemma {:induction false} CommittedEndsOnlySo(events: seq<Event>, f: Flow)
    requires AllSteady(events) && |events| + 1 < U64_MAX
    requires RefreshRuntime(f) in Run(events).log
    ensures Accounted(events, f)
  {
    hide Step;
    if events != [] {
      var before, e := events[..|events| - 1], events[|events| - 1];
      assert before + [e] == events && Run(events) == Advance(Run(before), e);
      SteadyIsOrderly(before);
      QueueHoldsFinishes(before);
      RunKeeps(before);
      if RefreshRuntime(f) in Run(before).log {
        CommittedEndsOnlySo(before, f);
        StaysAccounted(before, e, f);
      } else {
        CommittedIsPending(Run(before).m, e, f);
      }
    }
  }

  /** Once it no longer waits, exactly one such finish was returned or is queued, if and only if the session did
      not change while it was queued. */
  lemma CommittedIsFinished(events: seq<Event>, f: Flow)
    requires AllSteady(events) && |events| + 1 < U64_MAX
    requires RefreshRuntime(f) in Run(events).log && !PendingFor(Run(events).m, f)
    ensures exists k | 0 <= k < |events| :: ConcludedAt(events, f, k)
    ensures Total(Run(events), f) == 1 <==> NeverDropped(events, f)
  {
    SteadyIsOrderly(events);
    CommittedEndsOnlySo(events, f);
    CommittedWasStarted(events, f);
    FinishesAreConserved(events, f);
  }

  lemma {:induction false} CommittedWasStarted(events: seq<Event>, f: Flow)
    requires AllOrderly(events) && |events| + 1 < U64_MAX && RefreshRuntime(f) in Run(events).log
    ensures Started(f) in Run(events).log
  {
    if events != [] {
      var before, e := events[..|events| - 1], events[|events| - 1];
      RunKeeps(events);
      if RefreshRuntime(f) in Run(before).log {
        CommittedWasStarted(before, f);
      } else {
        QueueHoldsFinishes(before);
        CommittedIsPending(Run(before).m, e, f);
      }
    }
  }

  /** The worker is asked to refresh only for the outcome then pending: nothing but finishes is ever queued. */
  lemma CommittedIsPending(m: Manager, e: Event, f: Flow)
    requires OnlyFinishes(m.queued) && RefreshRuntime(f) in Step(m, e).1
    ensures PendingFor(Step(m, e).0, f)
  {
    match e
    case Expire(now) => ExpiringAsksNothing(m, now);
    case TakeQueued => NotQueued(m.queued, f);
    case _ =>
  }

  lemma NotQueued(acts: seq<Action>, f: Flow)
    requires OnlyFinishes(acts)
    ensures RefreshRuntime(f) !in acts && Started(f) !in acts && (acts != [] ==> acts[0].Finished?)
  {
    assert acts != [] ==> acts[0] in acts;
  }

  lemma ExpiringAsksNothing(m: Manager, now: nat)
    ensures forall a <- Expired(m, now).1 :: a.Listed? || a.Finished?
  {
  }

  predicate OnlyFinishes(acts: seq<Action>) { forall a <- acts :: a.Finished? }

  lemma {:induction false} QueueHoldsFinishes(events: seq<Event>)
    ensures OnlyFinishes(Run(events).m.queued)
  {
    if events != [] {
      QueueHoldsFinishes(events[..|events| - 1]);
      StepQueuesFinishes(Run(events[..|events| - 1]).m, events[|events| - 1]);
    }
  }

  lemma StepQueuesFinishes(m: Manager, e: Event)
    requires OnlyFinishes(m.queued)
    ensures OnlyFinishes(Step(m, e).0.queued)
  {
  }

  lemma StaysAccounted(before: seq<Event>, e: Event, f: Flow)
    requires Accounted(before, f) && Inv(Run(before)) && Run(before).m.nextId < U64_MAX && Steady(Run(before).m, e)
    ensures Accounted(before + [e], f)
  {
    var events, s := before + [e], Run(before);
    assert events[..|before|] == before && Run(events) == Advance(s, e);
    if PendingFor(s.m, f) {
      CommittedStep(s.m, e);
      if !PendingFor(Run(events).m, f) {
        ConcludedIsOver(s, e, f);
        assert ConcludedAt(events, f, |before|);
      }
    } else {
      var k :| 0 <= k < |before| && ConcludedAt(before, f, k);
      OverStays(s, e, f, OutcomeOf(before[k]));
      assert events[..k] == before[..k] && ConcludedAt(events, f, k);
    }
  }

  /** The condition is exact: a step that is not steady finishes the waiting flow by some other cause, at once
      when it is disorderly, and with a cancellation that cannot be sent when the answer was another flow's. */
  lemma UnsteadyEndsOtherwise(m: Manager, e: Event)
    requires Owned(m) && !Steady(m, e)
    ensures var (t, acts) := Step(m, e);
            && m.pending.Some? && !Concluded(m, e, m.pending.value.flow)
            && if Orderly(m, e) then
                 t.pending == None && Step(t, Cancel(false)).1 == [Finished(m.pending.value.flow, Unknown)]
               else OneFinish(acts, m.pending.value.flow)
  {
  }

  /** A run that is orderly and not steady. */
  lemma ADroppingRun(c: Context)
    requires Invalid(c, true) == None
    ensures var start := [Configure(c, true, true, 0), Start(true), HelperSays(Result(1, true, true, Succeeded), 0)];
            && AllSteady(start) && !Steady(Run(start).m, Control(2, true))
            && Run(start + [Control(2, true), Cancel(false)]).log ==
               [Started(1), RefreshRuntime(1), Finished(1, Unknown)]
  {
    var start := [Configure(c, true, true, 0), Start(true), HelperSays(Result(1, true, true, Succeeded), 0)];
    CommittedRun(c);
    RunTwoMore(start, Control(2, true), Cancel(false));
    hide Run, AllSteady;
    assert Step(Run(start).m, Control(2, true)) == (Run(start).m.(pending := None), []);
  }

  /** The first flow's credential is committed, and its outcome pending. */
  lemma CommittedRun(c: Context)
    requires Invalid(c, true) == None
    ensures var start := [Configure(c, true, true, 0), Start(true), HelperSays(Result(1, true, true, Succeeded), 0)];
            && AllSteady(start)
            && Run(start) == System(
                 FRESH.(context := Some(c), helper := true, active := Some(1), nextId := 2,
                        pending := Some(Pending(1, Succeeded, true)), refreshDeadline := Some(REFRESH_TIMEOUT_MS)),
                 [Started(1), RefreshRuntime(1)])
  {
    var start := [Configure(c, true, true, 0), Start(true), HelperSays(Result(1, true, true, Succeeded), 0)];
    var ready := FRESH.(context := Some(c), helper := true);
    assert start[..2][..1] == start[..1] && start[..1][..0] == [];
    assert Run(start[..1]) == Advance(System(FRESH, []), start[0]) == System(ready, []);
    assert Run(start[..2]) == System(ready.(active := Some(1), nextId := 2), [Started(1)]);
    assert AllSteady(start[..1]) && AllSteady(start[..2]);
  }

  /** What the helper says about any flow but the active one, or any request but the waiting one, changes nothing. */
  lemma OthersChangeNothing(m: Manager, r: HelperRecord, now: nat)
    requires m.helper && m.queued == []
    requires Unasked(m, r)
    ensures Step(m, HelperSays(r, now)) == (m, [Ignore])
  {
  }

  /** In every run a request for providers waits exactly as long as its deadline stands, is the newest asked,
      and asks what was last asked. */
  lemma {:induction false} CatalogWaitsWithDeadline(events: seq<Event>)
    requires |events| + 1 < U64_MAX
    ensures var m := Run(events).m;
            Awaited(m) && m.nextId <= |events| + 1
  {
    if events != [] {
      CatalogWaitsWithDeadline(events[..|events| - 1]);
      CatalogStep(Run(events[..|events| - 1]).m, events[|events| - 1]);
    }
  }

  predicate Awaited(m: Manager) {
    && (m.catalog.waiting.Some? <==> m.catalog.deadline.Some?)
    && (m.catalog.waiting.Some? ==>
          m.catalog.last == Some(m.catalog.waiting.value.query) && m.catalog.waiting.value.id < m.nextId)
  }

  lemma CatalogStep(m: Manager, e: Event)
    requires Awaited(m) && m.nextId < U64_MAX
    ensures Awaited(Step(m, e).0) && Step(m, e).0.nextId <= m.nextId + 1
  {
  }

  /** A refresh answer for another flow drops the pending outcome: from then on neither the timeout nor the
      right answer finishes the active flow. */
  lemma AnotherAnswerDropsPending(m: Manager, flow: Flow, success: bool, later: bool, now: nat)
    requires Owned(m) && m.pending.Some? && flow != m.pending.value.flow
    ensures var (t, acts) := Step(m, Control(flow, success));
            && acts == [] && t == m.(pending := None)
            && NoFinish(Step(t, Expire(now)).1) && Step(t, Expire(now)).0.active == m.active
            && Step(t, Control(m.pending.value.flow, later)) == (t, [])
  {
  }
}
