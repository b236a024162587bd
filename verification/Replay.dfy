/** A client that keeps asking for what is older than the oldest event it holds, over frames that may
    be shortened on the way. */
module Replay {
  import opened Basics
  import opened BridgeHistory
  import opened Frame

  /** Events held, oldest first, and whether the last frame said that older ones remain. */
  datatype Client = Client(held: seq<Event>, more: bool)

  /** What arrives of a page: its newest `count` events, and the flag. */
  datatype Delivery = Delivery(count: nat, more: bool)

  /** How pages travel (`first` for the snapshot), and which events could travel alone. */
  datatype Channel = Channel(deliver: (Page, bool) -> Delivery, fits: (Event, bool) -> bool)

  ghost predicate LawfulFor(channel: Channel, page: Page, first: bool) {
    var d := channel.deliver(page, first);
    var n := |page.events|;
    && d.count <= n
    && (!d.more ==> d.count == n && !page.hasMore)
    && (n > 0 ==> (d.count > 0 <==> channel.fits(page.events[n - 1], first)))
    && (n == 0 && !page.hasMore ==> !d.more)
    && (forall k | n - d.count <= k < n :: channel.fits(page.events[k], first))
  }

  ghost predicate Lawful(channel: Channel) {
    && (forall page, first :: LawfulFor(channel, page, first))
    && (forall e :: channel.fits(e, true) ==> channel.fits(e, false))
  }

  function Latest(events: seq<Event>, count: nat): seq<Event> {
    if count <= |events| then events[|events| - count..] else events
  }

  /** What is held once a page has arrived in front of it; nothing held means this is the snapshot. */
  function Extended(channel: Channel, page: Page, held: seq<Event>): Client {
    var d := channel.deliver(page, held == []);
    Client(Latest(page.events, d.count) + held, d.more)
  }

  /** The page that answers request `n` of a client holding `held`; request 0 is the snapshot. */
  type Server = (nat, seq<Event>) -> Page

  /** The client after `n` requests, made only while more is promised and an oldest event is known. */
  function Rounds(channel: Channel, server: Server, n: nat): Client {
    if n == 0 then Extended(channel, server(0, []), [])
    else
      var c := Rounds(channel, server, n - 1);
      if !c.more || c.held == [] then c else Extended(channel, server(n, c.held), c.held)
  }

  ghost predicate IsSuffix(held: seq<Event>, surface: seq<Event>) {
    |held| <= |surface| && held == surface[|surface| - |held|..]
  }

  /** The page is the end of `surface[..left]`, and says whether that goes back further. */
  ghost predicate EndsAt(surface: seq<Event>, left: nat, page: Page)
    requires left <= |surface|
  {
    && |page.events| <= left && page.events == surface[left - |page.events|..left]
    && page.hasMore == (left > |page.events|) && (left > 0 ==> page.events != [])
  }

  /** Every answer is the end of what is older than the suffix held. */
  ghost predicate Serves(server: Server, surface: seq<Event>) {
    forall n: nat, held: seq<Event> | (n == 0 || held != []) && IsSuffix(held, surface) ::
      EndsAt(surface, |surface| - |held|, server(n, held))
  }

  /** Every event could travel alone: the newest in a snapshot, the others in a history frame. */
  ghost predicate AllFit(channel: Channel, surface: seq<Event>) {
    forall k | 0 <= k < |surface| :: channel.fits(surface[k], k == |surface| - 1)
  }

  /** The client holds a suffix of the surface made of events that fit, and its flag is down only when
      that suffix is everything. */
  ghost predicate OnCourse(channel: Channel, surface: seq<Event>, c: Client) {
    && IsSuffix(c.held, surface)
    && (!c.more ==> |c.held| == |surface|)
    && forall k | |surface| - |c.held| <= k < |surface| :: channel.fits(surface[k], k == |surface| - 1)
  }

  // ---- one page ----

  /** Taking in a page that ends where `held` begins extends it without gap or duplicate, by at least
      one event exactly when the next older one fits, and lowers the flag only at the beginning. */
  lemma TakePage(channel: Channel, surface: seq<Event>, held: seq<Event>, page: Page)
    requires LawfulFor(channel, page, held == [])
    requires OnCourse(channel, surface, Client(held, true))
    requires EndsAt(surface, |surface| - |held|, page)
    requires forall e :: channel.fits(e, true) ==> channel.fits(e, false)
    ensures var left := |surface| - |held|;
            var next := Extended(channel, page, held);
            && OnCourse(channel, surface, next)
            && (left > 0 ==> (|next.held| > |held| <==> channel.fits(surface[left - 1], held == [])))
            && (left == 0 ==> !next.more)
            && |next.held| >= |held|
  {
    var left, n := |surface| - |held|, |page.events|;
    var d := channel.deliver(page, held == []);
    assert Latest(page.events, d.count) == surface[left - d.count..left];
    var next := surface[left - d.count..left] + held;
    assert next == surface[left - d.count..];
    forall k | left - d.count <= k < |surface| ensures channel.fits(surface[k], k == |surface| - 1) {
      if k < left {
        assert surface[k] == page.events[k - (left - n)];
      }
    }
  }

  // ---- whole runs ----

  /** One request: the client stays on course, and progresses exactly when the next older event fits. */
  lemma Round(channel: Channel, server: Server, surface: seq<Event>, n: nat, c: Client)
    requires Lawful(channel) && Serves(server, surface)
    requires OnCourse(channel, surface, c) && c.more && (n == 0 || c.held != [])
    ensures var next := Extended(channel, server(n, c.held), c.held);
            var left := |surface| - |c.held|;
            && OnCourse(channel, surface, next)
            && (left > 0 ==> (|next.held| > |c.held| <==> channel.fits(surface[left - 1], c.held == [])))
            && (left == 0 ==> !next.more)
  {
    var page := server(n, c.held);
    assert EndsAt(surface, |surface| - |c.held|, page);
    assert LawfulFor(channel, page, c.held == []);
    TakePage(channel, surface, c.held, page);
  }

  lemma {:induction false} NeverAGap(channel: Channel, server: Server, surface: seq<Event>, n: nat)
    requires Lawful(channel) && Serves(server, surface)
    ensures OnCourse(channel, surface, Rounds(channel, server, n))
  {
    hide Lawful, Serves, Extended;
    if n == 0 {
      Round(channel, server, surface, 0, Client([], true));
    } else {
      NeverAGap(channel, server, surface, n - 1);
      var c := Rounds(channel, server, n - 1);
      if c.more && c.held != [] {
        Round(channel, server, surface, n, c);
      }
    }
  }

  lemma {:induction false} StaysOnCourse(channel: Channel, server: Server, surface: seq<Event>, n: nat)
    requires Lawful(channel) && Serves(server, surface) && AllFit(channel, surface)
    ensures var c := Rounds(channel, server, n);
            && (|c.held| > n || |c.held| >= |surface|)
            && (n >= |surface| ==> !c.more)
  {
    hide Lawful, Serves, Extended;
    if n == 0 {
      Round(channel, server, surface, 0, Client([], true));
    } else {
      NeverAGap(channel, server, surface, n - 1);
      StaysOnCourse(channel, server, surface, n - 1);
      var c := Rounds(channel, server, n - 1);
      if c.more && c.held != [] {
        Round(channel, server, surface, n, c);
      }
    }
  }

  /** Over any lawful channel the client recovers the whole history, stopping with the flag down after
      at most one request per event, if and only if every event fits. */
  lemma RecoversExactlyWhenAllFit(channel: Channel, server: Server, surface: seq<Event>)
    requires Lawful(channel) && Serves(server, surface)
    ensures AllFit(channel, surface) ==>
              forall n: nat | n >= |surface| :: Rounds(channel, server, n) == Client(surface, false)
    ensures !AllFit(channel, surface) ==> forall n: nat :: Rounds(channel, server, n).held != surface
  {
    forall n: nat | AllFit(channel, surface) && n >= |surface|
      ensures Rounds(channel, server, n) == Client(surface, false)
    {
      NeverAGap(channel, server, surface, n);
      StaysOnCourse(channel, server, surface, n);
      WholeSuffix(surface, Rounds(channel, server, n).held);
    }
    forall n: nat | !AllFit(channel, surface) ensures Rounds(channel, server, n).held != surface {
      NeverAGap(channel, server, surface, n);
    }
  }

  lemma WholeSuffix(surface: seq<Event>, held: seq<Event>)
    requires IsSuffix(held, surface) && |held| == |surface|
    ensures held == surface
  {
    assert surface[0..] == surface;
  }

  // ---- the bridge as a server ----

  /** Request `n` finds the log as it is then, and asks for `limits(n)` events. */
  function BridgeServer(logs: nat -> seq<Event>, cap: nat, limits: nat -> Number): Server {
    (n: nat, held: seq<Event>) =>
      if held == [] then PageOf(Surface(logs(n)), None, cap)
      else PageOf(Surface(logs(n)), Some(held[0].number), ClampLimit(limits(n)))
  }

  lemma SnapshotPage(surface: seq<Event>, cap: nat)
    requires cap > 0
    ensures EndsAt(surface, |surface|, PageOf(surface, None, cap))
  {
  }

  lemma OlderPage(surface: seq<Event>, now: seq<Event>, left: nat, bound: nat, limit: nat)
    requires limit > 0 && left <= |surface| && Before(now, Some(bound)) == surface[..left]
    ensures EndsAt(surface, left, PageOf(now, Some(bound), limit))
  {
  }

  /** What precedes a suffix of the surface, however much has been appended since. */
  lemma OlderThan(surface: seq<Event>, now: seq<Event>, held: seq<Event>)
    requires surface <= now && Increasing(now)
    requires held != [] && IsSuffix(held, surface)
    ensures Before(now, Some(held[0].number)) == surface[..|surface| - |held|]
  {
    var i := |surface| - |held|;
    assert held[0] == surface[i] == now[i];
    BeforeEntry(now, i);
    assert now[..i] == surface[..i];
  }

  lemma BridgeServes(logs: nat -> seq<Event>, cap: nat, limits: nat -> Number)
    requires cap > 0
    requires forall k: nat :: logs(0) <= logs(k) && Increasing(logs(k))
    ensures Serves(BridgeServer(logs, cap, limits), Surface(logs(0)))
  {
    hide Surface, Before, PageOf, Increasing, EndsAt;
    var surface := Surface(logs(0));
    forall n: nat, held: seq<Event> | (n == 0 || held != []) && IsSuffix(held, surface)
      ensures EndsAt(surface, |surface| - |held|, BridgeServer(logs, cap, limits)(n, held))
    {
      if held == [] {
        SnapshotPage(surface, cap);
      } else {
        GrownSurface(logs(0), logs(n));
        OlderThan(surface, Surface(logs(n)), held);
        OlderPage(surface, Surface(logs(n)), |surface| - |held|, held[0].number, ClampLimit(limits(n)));
      }
    }
  }

  lemma GrownSurface(log: seq<Event>, now: seq<Event>)
    requires log <= now && Increasing(now)
    ensures Surface(log) <= Surface(now) && Increasing(Surface(now))
  {
    assert now == log + now[|log|..];
    SurfacePrefix(log, now[|log|..]);
    SurfaceIncreasing(now);
  }

  // ---- the bridge as a channel ----

  datatype Bridge = Bridge(enc: Serialiser, maxBytes: nat)

  predicate FitsOneFrame(bridge: Bridge, e: Event, first: bool) {
    |Encode(bridge.enc, if first then Snapshot([e], true) else History([e], true))| <= bridge.maxBytes
  }

  predicate EmptyFits(bridge: Bridge) {
    |Encode(bridge.enc, Snapshot([], false))| <= bridge.maxBytes
  }

  function FrameOf(page: Page, first: bool): Message {
    if first then Snapshot(page.events, page.hasMore) else History(page.events, page.hasMore)
  }

  /** A frame that could not be sent brings nothing and leaves the client asking. */
  function Deliver(bridge: Bridge, page: Page, first: bool): Delivery {
    match Bounded(bridge.enc, FrameOf(page, first), bridge.maxBytes)
    case Whole(m) => if m.HasEvents() then Delivery(|m.events|, m.Flag()) else Delivery(0, true)
    case Error => Delivery(0, true)
  }

  function BridgeChannel(bridge: Bridge): Channel {
    Channel((page: Page, first: bool) => Deliver(bridge, page, first),
            (e: Event, first: bool) => FitsOneFrame(bridge, e, first))
  }

  lemma {:induction false} OneOfMany(enc: Serialiser, events: seq<Event>, k: nat)
    requires k < |events|
    ensures |enc(events[k])| <= EventBytes(enc, events)
  {
    if k > 0 {
      OneOfMany(enc, events[1..], k - 1);
    }
  }

  /** An event that cannot travel alone cannot travel in company either. */
  lemma TooBig(bridge: Bridge, m: Message, events: seq<Event>, k: nat)
    requires m.HasEvents() && |Encode(bridge.enc, m)| <= bridge.maxBytes
    requires |m.events| <= |events| && m.events == Newest(events, |m.events|)
    requires |events| - |m.events| <= k < |events|
    ensures FitsOneFrame(bridge, events[k], m.Snapshot?)
  {
    OneOfMany(bridge.enc, m.events, k - (|events| - |m.events|));
    SizeOf(bridge.enc, m);
    SizeOf(bridge.enc, if m.Snapshot? then Snapshot([events[k]], true) else History([events[k]], true));
  }

  lemma NewestArrives(bridge: Bridge, page: Page, first: bool)
    requires page.events != []
    ensures Deliver(bridge, page, first).count > 0 <==> FitsOneFrame(bridge, page.events[|page.events| - 1], first)
  {
    hide Encode, EventBytes, Greatest;
    var m := FrameOf(page, first);
    ShortenToOne(bridge, page, first);
    BestCountMeaning(bridge.enc, m, bridge.maxBytes);
    ShortenedSize(bridge.enc, m, 1, |page.events|);
  }

  lemma ShortenToOne(bridge: Bridge, page: Page, first: bool)
    requires page.events != []
    ensures Fits(bridge.enc, FrameOf(page, first), 1, bridge.maxBytes) ==
            FitsOneFrame(bridge, page.events[|page.events| - 1], first)
  {
    assert Newest(page.events, 1) == [page.events[|page.events| - 1]];
  }

  /** Only events that fit alone ever arrive. */
  lemma ArrivedFit(bridge: Bridge, page: Page, first: bool)
    ensures var d := Deliver(bridge, page, first);
            var n := |page.events|;
            && d.count <= n && (!d.more ==> d.count == n && !page.hasMore)
            && forall k | n - d.count <= k < n :: FitsOneFrame(bridge, page.events[k], first)
  {
    var m := FrameOf(page, first);
    BoundedMeaning(bridge.enc, m, bridge.maxBytes);
    match Bounded(bridge.enc, m, bridge.maxBytes)
    case Error =>
    case Whole(sent) =>
      var n := |page.events|;
      forall k | n - |sent.events| <= k < n ensures FitsOneFrame(bridge, page.events[k], first) {
        TooBig(bridge, sent, page.events, k);
      }
  }

  lemma EmptyArrives(bridge: Bridge, first: bool)
    requires EmptyFits(bridge)
    ensures !Deliver(bridge, Page([], false), first).more
  {
    SizeOf(bridge.enc, FrameOf(Page([], false), first));
    SizeOf(bridge.enc, Snapshot([], false));
  }

  lemma ChannelIsLawfulFor(bridge: Bridge, page: Page, first: bool)
    requires EmptyFits(bridge)
    ensures LawfulFor(BridgeChannel(bridge), page, first)
  {
    ArrivedFit(bridge, page, first);
    if page.events != [] {
      NewestArrives(bridge, page, first);
    } else if !page.hasMore {
      assert page == Page([], false);
      EmptyArrives(bridge, first);
    }
    assert BridgeChannel(bridge).deliver(page, first) == Deliver(bridge, page, first);
  }

  lemma ChannelIsLawful(bridge: Bridge)
    requires EmptyFits(bridge)
    ensures Lawful(BridgeChannel(bridge))
  {
    var channel := BridgeChannel(bridge);
    forall page, first ensures LawfulFor(channel, page, first) {
      ChannelIsLawfulFor(bridge, page, first);
    }
    forall e | channel.fits(e, true) ensures channel.fits(e, false) {
      SizeOf(bridge.enc, Snapshot([e], true));
      SizeOf(bridge.enc, History([e], true));
    }
  }

  lemma AllFitOnChannel(bridge: Bridge, history: seq<Event>)
    ensures AllFit(BridgeChannel(bridge), history) <==>
            forall k | 0 <= k < |history| :: FitsOneFrame(bridge, history[k], k == |history| - 1)
  {
    assert forall e, first :: BridgeChannel(bridge).fits(e, first) == FitsOneFrame(bridge, e, first);
  }

  /** The bridge: its shortened frames still let a client recover the whole history exactly when every
      single event fits one frame, whatever limits are asked for and whatever is logged meanwhile. */
  lemma BridgeHistoryIsRecoverable(bridge: Bridge, cap: nat, logs: nat -> seq<Event>, limits: nat -> Number)
    requires EmptyFits(bridge) && cap > 0
    requires forall k: nat :: logs(0) <= logs(k) && Increasing(logs(k))
    ensures var history := Surface(logs(0));
            var eachFits := forall k | 0 <= k < |history| :: FitsOneFrame(bridge, history[k], k == |history| - 1);
            var server := BridgeServer(logs, cap, limits);
            && (eachFits ==>
                  forall n: nat | n >= |history| :: Rounds(BridgeChannel(bridge), server, n) == Client(history, false))
            && (!eachFits ==> forall n: nat :: Rounds(BridgeChannel(bridge), server, n).held != history)
  {
    ChannelIsLawful(bridge);
    BridgeServes(logs, cap, limits);
    var history := Surface(logs(0));
    RecoversExactlyWhenAllFit(BridgeChannel(bridge), BridgeServer(logs, cap, limits), history);
    AllFitOnChannel(bridge, history);
  }
}
