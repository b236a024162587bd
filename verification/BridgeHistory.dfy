/** The bridge's cache of surface events, grown from the live log and paged backwards. */
module BridgeHistory {
  import opened Basics

  /** `number` is the event's sequence number, 0 when it has none; `surface` says whether clients are shown it. */
  datatype Event = Event(number: nat, surface: bool, body: string)

  function Surface(log: seq<Event>): seq<Event> {
    if log == [] then []
    else Surface(log[..|log| - 1]) + (if log[|log| - 1].surface then [log[|log| - 1]] else [])
  }

  ghost predicate Increasing(log: seq<Event>) {
    forall i, j | 0 <= i < j < |log| :: log[i].number < log[j].number
  }

  /** A cached surface list and the highest number already looked at, -1 for none. */
  datatype Cached = Cached(list: seq<Event>, lastSeq: int)

  function LastSeq(log: seq<Event>): (last: int)
    ensures last >= -1
    ensures forall e <- log :: e.number <= last
  {
    if log == [] then -1
    else
      var before, e := LastSeq(log[..|log| - 1]), log[|log| - 1];
      assert forall x <- log :: x in log[..|log| - 1] || x == e;
      if e.number > before then e.number else before
  }

  /** A first look at a session keeps every surface event. */
  function Scan(log: seq<Event>): Cached {
    Cached(Surface(log), LastSeq(log))
  }

  /** A later look keeps only events numbered above everything seen before. */
  function Grow(state: Cached, log: seq<Event>): Cached {
    if log == [] then state
    else
      var before, e := Grow(state, log[..|log| - 1]), log[|log| - 1];
      if e.number > before.lastSeq
      then Cached(before.list + (if e.surface then [e] else []), e.number)
      else before
  }

  /** Every surface event of `more` is numbered above all that comes before it. */
  ghost predicate Fresh(log: seq<Event>, more: seq<Event>) {
    forall k | 0 <= k < |more| && more[k].surface :: LastSeq(log + more[..k]) < more[k].number
  }

  lemma {:induction false} GrowOverSeen(state: Cached, log: seq<Event>)
    requires forall e <- log :: e.number <= state.lastSeq
    ensures Grow(state, log) == state
  {
    if log != [] {
      GrowOverSeen(state, log[..|log| - 1]);
    }
  }

  /** The grown list is the surface exactly when `whole`, and otherwise shorter. */
  predicate Tracks(grown: Cached, surface: seq<Event>, last: int, whole: bool) {
    && grown.lastSeq == last && |grown.list| <= |surface|
    && (grown.list == surface <==> whole)
    && (!whole ==> |grown.list| < |surface|)
  }

  function Kept(e: Event, keep: bool): seq<Event> { if keep then [e] else [] }

  lemma TracksOneMore(grown: Cached, surface: seq<Event>, last: int, whole: bool, e: Event)
    requires Tracks(grown, surface, last, whole)
    ensures var seen := e.number <= last;
            Tracks(if seen then grown else Cached(grown.list + Kept(e, e.surface), e.number),
                   surface + Kept(e, e.surface), if seen then last else e.number, whole && (e.surface ==> !seen))
  {
    assert e.surface ==> |surface + Kept(e, e.surface)| == |surface| + 1;
  }

  lemma NothingGrown(log: seq<Event>)
    ensures Tracks(Grow(Scan(log), log), Surface(log), LastSeq(log), Fresh(log, []))
  {
    GrowOverSeen(Scan(log), log);
  }

  /** Growing never keeps more than the surface, tracks the highest number, and misses nothing
      exactly when the new events are fresh. */
  lemma {:induction false} GrowMore(log: seq<Event>, more: seq<Event>)
    ensures Tracks(Grow(Scan(log), log + more), Surface(log + more), LastSeq(log + more), Fresh(log, more))
  {
    hide Fresh, Grow, Scan, Surface, LastSeq, Tracks;
    if more == [] {
      NothingGrown(log);
      assert log + more == log;
    } else {
      var before, e := log + more[..|more| - 1], more[|more| - 1];
      GrowMore(log, more[..|more| - 1]);
      FreshSnoc(log, more);
      OneMore(Scan(log), before, e);
      TracksOneMore(Grow(Scan(log), before), Surface(before), LastSeq(before), Fresh(log, more[..|more| - 1]), e);
      GrownLast(Grow(Scan(log), before), Surface(before), LastSeq(before), Fresh(log, more[..|more| - 1]));
      assert log + more == before + [e];
    }
  }

  lemma GrownLast(grown: Cached, surface: seq<Event>, last: int, whole: bool)
    requires Tracks(grown, surface, last, whole)
    ensures grown.lastSeq == last
  {
  }

  lemma OneMore(state: Cached, log: seq<Event>, e: Event)
    ensures var before := Grow(state, log);
            && Grow(state, log + [e]) == (if e.number > before.lastSeq
                                          then Cached(before.list + Kept(e, e.surface), e.number) else before)
            && Surface(log + [e]) == Surface(log) + Kept(e, e.surface)
            && LastSeq(log + [e]) == if e.number > LastSeq(log) then e.number else LastSeq(log)
  {
    assert (log + [e])[..|log|] == log;
  }

  lemma FreshSnoc(log: seq<Event>, more: seq<Event>)
    requires more != []
    ensures var n := |more| - 1;
            Fresh(log, more) <==>
            Fresh(log, more[..n]) && (more[n].surface ==> LastSeq(log + more[..n]) < more[n].number)
  {
    var n := |more| - 1;
    assert forall k | 0 <= k <= n :: more[..n][..k] == more[..k];
  }

  /** Revisiting a grown log agrees with filtering it whole if and only if the events appended since
      are fresh. */
  lemma GrowthIsExact(log: seq<Event>, more: seq<Event>)
    ensures Grow(Scan(log), log + more) == Scan(log + more) <==> Fresh(log, more)
  {
    GrowMore(log, more);
  }

  lemma IncreasingIsFresh(log: seq<Event>, more: seq<Event>)
    requires Increasing(log + more)
    ensures Fresh(log, more)
  {
    forall k | 0 <= k < |more| ensures LastSeq(log + more[..k]) < more[k].number {
      var prefix := log + more[..k];
      assert more[k] == (log + more)[|log| + k];
      assert forall i | 0 <= i < |prefix| :: prefix[i] == (log + more)[i];
      LastSeqBelow(prefix, more[k].number);
    }
  }

  /** Looks in between change nothing: growing again equals growing once, from the first look. */
  lemma {:induction false} GrowAgain(state: Cached, log: seq<Event>, more: seq<Event>)
    ensures Grow(Grow(state, log), log + more) == Grow(state, log + more)
  {
    if more == [] {
      assert log + more == log;
      GrownHasSeen(state, log);
      GrowOverSeen(Grow(state, log), log);
    } else {
      var all := log + more;
      assert all[..|all| - 1] == log + more[..|more| - 1];
      GrowAgain(state, log, more[..|more| - 1]);
    }
  }

  lemma {:induction false} GrownHasSeen(state: Cached, log: seq<Event>)
    ensures state.lastSeq <= Grow(state, log).lastSeq && forall e <- log :: e.number <= Grow(state, log).lastSeq
  {
    if log != [] {
      GrownHasSeen(state, log[..|log| - 1]);
      assert forall e <- log :: e in log[..|log| - 1] || e == log[|log| - 1];
    }
  }

  lemma {:induction false} LastSeqBelow(log: seq<Event>, bound: nat)
    requires forall i | 0 <= i < |log| :: log[i].number < bound
    ensures LastSeq(log) < bound
  {
    if log != [] {
      LastSeqBelow(log[..|log| - 1], bound);
    }
  }

  method FirstLook(live: seq<Event>) returns (state: Cached)
    ensures state == Scan(live)
  {
    state := Cached([], -1);
    for i := 0 to |live|
      invariant state == Scan(live[..i])
    {
      assert live[..i + 1][..i] == live[..i];
      var event := live[i];
      if event.number > state.lastSeq {
        state := state.(lastSeq := event.number);
      }
      if event.surface {
        state := state.(list := state.list + [event]);
      }
    }
    assert live[..|live|] == live;
  }

  method LookAgain(seen: Cached, live: seq<Event>) returns (state: Cached)
    ensures state == Grow(seen, live)
  {
    state := seen;
    for i := 0 to |live|
      invariant state == Grow(seen, live[..i])
    {
      assert live[..i + 1][..i] == live[..i];
      var event := live[i];
      if event.number > state.lastSeq {
        state := state.(lastSeq := event.number);
        if event.surface {
          state := state.(list := state.list + [event]);
        }
      }
    }
    assert live[..|live|] == live;
  }

  /** The per-process cache over live sessions. */
  class HistoryCache {
    const maxSessions: nat
    var surfaceState: map<string, Cached>
    ghost var logs: map<string, seq<Event>>   // each session's log when it was last looked at,
    ghost var since: map<string, seq<Event>>  // and when it was first looked at since the cache was dropped

    ghost predicate Valid()
      reads this
    {
      && |surfaceState| <= maxSessions + 1
      && forall id <- surfaceState ::
           id in logs && id in since && since[id] <= logs[id] && surfaceState[id] == Grow(Scan(since[id]), logs[id])
    }

    constructor (maxSessions: nat)
      ensures Valid() && logs == map[] && surfaceState == map[] && this.maxSessions == maxSessions
    {
      this.maxSessions := maxSessions;
      surfaceState, logs, since := map[], map[], map[];
    }

    /** Logs are append-only; sessions come in any order, and the whole cache is dropped whenever it has grown
        past `maxSessions`. After any number of looks the list is the surface of the log if and only if the events
        appended since the first of them are fresh, as those of an increasing log are. */
    method SurfaceFor(id: string, live: seq<Event>) returns (list: seq<Event>)
      requires Valid()
      requires id in logs ==> logs[id] <= live
      modifies this
      ensures Valid()
      ensures surfaceState.Keys == (if old(|surfaceState|) > maxSessions then {} else old(surfaceState.Keys)) + {id}
      ensures logs == old(logs)[id := live] && id in since && since[id] <= live
      ensures since[id] ==
              if old(|surfaceState|) > maxSessions || id !in old(surfaceState) then live else old(since)[id]
      ensures list == Surface(live) <==> Fresh(since[id], live[|since[id]|..])
      ensures Increasing(live) ==> list == Surface(live)
    {
      if |surfaceState| > maxSessions {
        surfaceState, since := map[], map[];
      }
      list := Look(id, live);
    }

    method Look(id: string, live: seq<Event>) returns (list: seq<Event>)
      requires Valid() && |surfaceState| <= maxSessions
      requires id in logs ==> logs[id] <= live
      modifies this
      ensures Valid()
      ensures surfaceState.Keys == old(surfaceState.Keys) + {id}
      ensures logs == old(logs)[id := live] && id in since && since[id] <= live
      ensures since[id] == if id !in old(surfaceState) then live else old(since)[id]
      ensures list == Surface(live) <==> Fresh(since[id], live[|since[id]|..])
      ensures Increasing(live) ==> list == Surface(live)
    {
      hide Surface, Scan, Grow, Fresh, Increasing, LastSeq;
      var state := StateOf(id, live);
      if id !in surfaceState {
        since := since[id := live];
      }
      SinceFirst(since[id], live);
      Inserted(surfaceState, id, state);
      surfaceState := surfaceState[id := state];
      logs := logs[id := live];
      list := state.list;
    }

    method StateOf(id: string, live: seq<Event>) returns (state: Cached)
      requires Valid()
      requires id in logs ==> logs[id] <= live
      ensures var first := if id in surfaceState then since[id] else live;
              first <= live && state == Grow(Scan(first), live)
    {
      hide Surface, Scan, Grow, LastSeq;
      if id !in surfaceState {
        state := FirstLook(live);
        SinceFirst(live, live);
      } else {
        state := LookAgain(surfaceState[id], live);
        GrowAgain(Scan(since[id]), logs[id], live[|logs[id]|..]);
        assert live == logs[id] + live[|logs[id]|..];
      }
    }
  }

  lemma SinceFirst(first: seq<Event>, live: seq<Event>)
    requires first <= live
    ensures var more := live[|first|..];
            && (Grow(Scan(first), live).list == Surface(live) <==> Fresh(first, more))
            && (Increasing(live) ==> Fresh(first, more))
            && (first == live ==> Grow(Scan(first), live) == Scan(live))
  {
    var more := live[|first|..];
    assert live == first + more;
    GrowMore(first, more);
    GrowOverSeen(Scan(first), first);
    if Increasing(live) {
      IncreasingIsFresh(first, more);
    }
  }

  /** Two events of one number, a look between them: the second is never shown. */
  method StaleEventIsMissed() returns (list: seq<Event>)
    ensures var log := [Event(5, true, "a"), Event(5, true, "b")]; Surface(log) == log && list != log
  {
    hide Surface, Fresh, LastSeq;
    var a, b := Event(5, true, "a"), Event(5, true, "b");
    var cache := new HistoryCache(64);
    var _ := cache.SurfaceFor("session", [a]);
    assert |cache.surfaceState| == |cache.surfaceState.Keys| && cache.surfaceState.Keys == {"session"};
    list := cache.SurfaceFor("session", [a, b]);
    SecondIsStale(a, b);
    assert cache.since["session"] == [a] && [a, b][1..] == [b];
  }

  lemma SecondIsStale(a: Event, b: Event)
    requires a.surface && b.surface && a.number == b.number
    ensures Surface([a, b]) == [a, b] && !Fresh([a], [b])
  {
    assert [a, b][..1] == [a] && [a][..0] == [];
    assert Surface([a]) == [a] && LastSeq([a]) == a.number;
    assert [b][..0] == [] && [a] + [] == [a];
    assert [b][0].surface && !(LastSeq([a] + [b][..0]) < [b][0].number);
  }

  lemma Inserted<V>(m: map<string, V>, id: string, v: V)
    ensures m[id := v].Keys == m.Keys + {id}
    ensures |m[id := v]| == if id in m then |m| else |m| + 1
  {
    assert m[id := v].Keys == m.Keys + {id};
    assert id in m ==> m.Keys + {id} == m.Keys;
    assert |m[id := v]| == |m[id := v].Keys| && |m| == |m.Keys|;
  }

  /** A session whose log is on disk: the surface is filtered once, from whatever log is there then. */
  class ColdSession {
    var log: Option<seq<Event>>
    var surface: Option<seq<Event>>
    ghost var askedEarly: bool  // the surface was asked for before the log was read

    ghost predicate Valid()
      reads this
    {
      && (log == None ==> surface == None || (askedEarly && surface == Some([])))
      && (log.Some? && !askedEarly ==> surface == None || surface == Some(Surface(log.value)))
      && (askedEarly ==> surface == Some([]))
    }

    constructor ()
      ensures Valid() && log == None && !askedEarly
    {
      log, surface, askedEarly := None, None, false;
    }

    method SurfaceFor() returns (list: seq<Event>)
      requires Valid()
      modifies `surface, `askedEarly
      ensures Valid()
      ensures askedEarly == (old(askedEarly) || log == None)
      ensures log.Some? ==> (list == Surface(log.value) <==> !old(askedEarly) || Surface(log.value) == [])
      ensures old(askedEarly) ==> list == []
    {
      if surface == None {
        surface := Some(Surface(if log.Some? then log.value else []));
        if log == None {
          askedEarly := true;
        }
      }
      list := surface.value;
    }

    /** The persistence read of the first snapshot. */
    method Loaded(events: seq<Event>)
      requires Valid() && log == None
      modifies `log
      ensures Valid() && log == Some(events)
    {
      log := Some(events);
    }
  }

  /** History asked for while the log is still being read: the surface stays empty for good. */
  method EarlyAskerSeesNothing() returns (list: seq<Event>)
    ensures list == [] && Surface([Event(1, true, "x")]) != []
  {
    var session := new ColdSession();
    var early := session.SurfaceFor();
    session.Loaded([Event(1, true, "x")]);
    assert [Event(1, true, "x")][..0] == [];
    list := session.SurfaceFor();
  }

  // ---- paging ----

  function Before(list: seq<Event>, beforeSeq: Option<nat>): seq<Event> {
    if beforeSeq == None || list == [] then list
    else Before(list[..|list| - 1], beforeSeq)
         + (if list[|list| - 1].number < beforeSeq.value then [list[|list| - 1]] else [])
  }

  /** The last `limit` elements; a limit of 0 takes all, as negating it is no change. */
  function Tail(list: seq<Event>, limit: nat): (tail: seq<Event>)
    ensures |tail| <= |list| && tail == list[|list| - |tail|..]
  {
    if limit == 0 || |list| <= limit then list else list[|list| - limit..]
  }

  datatype Page = Page(events: seq<Event>, hasMore: bool)

  function PageOf(surface: seq<Event>, beforeSeq: Option<nat>, limit: nat): Page {
    var filtered := Before(surface, beforeSeq);
    var tail := Tail(filtered, limit);
    Page(tail, |filtered| > |tail|)
  }

  const HISTORY_CAP: nat := 2000

  /** A number as JSON gives it; a literal too large for a double is infinite. */
  datatype Number = Finite(value: real) | Infinite

  function Truncated(x: real): int { if x >= 0.0 then x.Floor else -((-x).Floor) }

  /** The bitwise conversion of a number to 32 bits: towards zero, then wrapped around into the signed range. */
  function ToInt32(x: Number): (n: int)
    ensures -0x8000_0000 <= n < 0x8000_0000
  {
    if x.Infinite? then 0
    else
      var m := Truncated(x.value) % 0x1_0000_0000;
      if m >= 0x8000_0000 then m - 0x1_0000_0000 else m
  }

  /** The clamp on a requested limit. */
  function ClampLimit(limit: Number): (clamped: nat)
    ensures 1 <= clamped <= HISTORY_CAP
  {
    var n := ToInt32(limit);
    if n < 1 then 1 else if n < HISTORY_CAP then n else HISTORY_CAP
  }

  /** Below 2^31 a limit is its whole part clamped; from there the conversion wraps, so that 2^31 asks for one
      event and 2^32 + 5 for five. */
  lemma ClampLimitMeaning(x: real)
    ensures -2147483648.0 <= x < 2147483648.0 ==>
              ClampLimit(Finite(x)) == if x < 1.0 then 1 else if x >= 2000.0 then HISTORY_CAP else x.Floor
    ensures ClampLimit(Finite(2147483648.0)) == 1 && ClampLimit(Finite(4294967301.0)) == 5
  {
    if 0.0 <= x < 2147483648.0 {
      assert 0 <= x.Floor < 0x8000_0000;
    } else if -2147483648.0 <= x < 0.0 {
      assert 0 <= (-x).Floor <= 0x8000_0000;
    }
  }

  /** Everything older than the `i`-th entry of an increasing list is exactly what precedes it. */
  lemma BeforeEntry(list: seq<Event>, i: nat)
    requires Increasing(list) && i < |list|
    ensures Before(list, Some(list[i].number)) == list[..i]
  {
    BeforeBound(list, i, list[i].number);
  }

  lemma {:induction false} BeforeBound(list: seq<Event>, i: nat, bound: nat)
    requires i <= |list|
    requires forall k | 0 <= k < i :: list[k].number < bound
    requires forall k | i <= k < |list| :: bound <= list[k].number
    ensures Before(list, Some(bound)) == list[..i]
  {
    if list != [] {
      var n := |list| - 1;
      BeforeBound(list[..n], if i <= n then i else n, bound);
    }
  }

  /** How many of the events there are a page takes; a limit of 0 asks for all. */
  function Taken(there: nat, limit: nat): nat { if limit == 0 || there < limit then there else limit }

  /** A page holds the newest events below its bound, all of them or as many as asked for, and says whether older
      ones remain. */
  lemma PageHolds(list: seq<Event>, i: nat, bound: nat, limit: nat)
    requires i <= |list|
    requires forall k | 0 <= k < i :: list[k].number < bound
    requires forall k | i <= k < |list| :: bound <= list[k].number
    ensures var n := Taken(i, limit); PageOf(list, Some(bound), limit) == Page(list[i - n..i], n < i)
    ensures var n := Taken(|list|, limit); PageOf(list, None, limit) == Page(list[|list| - n..], n < |list|)
  {
    BeforeBound(list, i, bound);
    BeforeNothing(list);
    TailIs(list[..i], limit);
    TailIs(list, limit);
    hide Before, Tail, Taken;
    var n := Taken(i, limit);
    assert list[..i][i - n..] == list[i - n..i];
  }

  lemma BeforeNothing(list: seq<Event>)
    ensures Before(list, None) == list
  {
  }

  lemma TailIs(list: seq<Event>, limit: nat)
    ensures var n := Taken(|list|, limit); n <= |list| && Tail(list, limit) == list[|list| - n..]
  {
  }

  lemma {:induction false} SurfacePrefix(log: seq<Event>, more: seq<Event>)
    ensures Surface(log) <= Surface(log + more)
  {
    if more == [] {
      assert log + more == log;
    } else {
      assert (log + more)[..|log + more| - 1] == log + more[..|more| - 1];
      SurfacePrefix(log, more[..|more| - 1]);
    }
  }

  /** The surface holds each surface event as often as the log does, and nothing else; with `SurfacePrefix`, in
      the order of the log. */
  lemma {:induction false} SurfaceHolds(log: seq<Event>, e: Event)
    ensures multiset(Surface(log))[e] == if e.surface then multiset(log)[e] else 0
  {
    if log != [] {
      var n := |log| - 1;
      SurfaceHolds(log[..n], e);
      assert log == log[..n] + [log[n]];
    }
  }

  lemma {:induction false} SurfaceIncreasing(log: seq<Event>)
    requires Increasing(log)
    ensures Increasing(Surface(log)) && forall e <- Surface(log) :: e in log
  {
    if log != [] {
      var earlier, last := log[..|log| - 1], log[|log| - 1];
      SurfaceIncreasing(earlier);
      forall e <- Surface(earlier) ensures e.number < last.number {
        var i :| 0 <= i < |earlier| && earlier[i] == e;
        assert log[i] == e;
      }
    }
  }
}
