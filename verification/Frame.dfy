/** Server frames under the wire budget. A wire is written as the string of its UTF-8 bytes. */
module Frame {
  import opened Basics
  import opened BridgeHistory

  type Wire = string

  /** What an event is sent as: trimmed, then serialised. */
  type Serialiser = Event -> Wire

  datatype Message =
    | Snapshot(events: seq<Event>, truncated: bool)
    | History(events: seq<Event>, hasMore: bool)
    | Other(wire: Wire)  // a frame without an events array
  {
    predicate HasEvents() { !Other? }

    function Flag(): bool
      requires HasEvents()
    {
      if Snapshot? then truncated else hasMore
    }
  }

  function Commas(enc: Serialiser, events: seq<Event>): Wire {
    if events == [] then ""
    else if |events| == 1 then enc(events[0])
    else enc(events[0]) + "," + Commas(enc, events[1..])
  }

  function Bool(b: bool): Wire { if b then "true" else "false" }

  function Opening(kind: string): (wire: Wire)
    ensures |wire| == |kind| + 21
  {
    "{\"type\":\"" + kind + "\",\"events\":["
  }

  function Closing(flag: string, value: bool): (wire: Wire)
    ensures |wire| == |flag| + 6 + |Bool(value)|
  {
    "],\"" + flag + "\":" + Bool(value) + "}"
  }

  function Encode(enc: Serialiser, m: Message): Wire {
    match m
    case Snapshot(events, truncated) => Opening("snapshot") + Commas(enc, events) + Closing("truncated", truncated)
    case History(events, hasMore) => Opening("history") + Commas(enc, events) + Closing("hasMore", hasMore)
    case Other(wire) => wire
  }

  function Decimal(n: nat): Wire {
    (if n < 10 then "" else Decimal(n / 10)) + ["0123456789"[n % 10]]
  }

  function Oversized(maxBytes: nat): Wire {
    "{\"type\":\"error\",\"code\":\"frame-too-large\",\"message\":\"bridge frame exceeded "
    + Decimal(maxBytes) + " bytes and was not sent\"}"
  }

  /** The newest `count` events; an `events.slice(-count)` with `count` above 0. */
  function Newest(events: seq<Event>, count: nat): seq<Event>
    requires count <= |events|
  {
    events[|events| - count..]
  }

  /** The frame with only its newest `count` events, saying that older ones remain. */
  function Shorten(m: Message, count: nat): Message
    requires m.HasEvents() && count <= |m.events|
  {
    match m
    case Snapshot(events, _) => Snapshot(Newest(events, count), true)
    case History(events, _) => History(Newest(events, count), true)
  }

  // ---- encoded sizes ----

  function EventBytes(enc: Serialiser, events: seq<Event>): nat { |Commas(enc, events)| }

  lemma {:induction false} NewestSize(enc: Serialiser, events: seq<Event>, few: nat, many: nat)
    requires few <= many <= |events|
    ensures EventBytes(enc, Newest(events, few)) <= EventBytes(enc, Newest(events, many))
    decreases many
  {
    if few < many {
      var longer := Newest(events, many);
      assert longer[1..] == Newest(events, many - 1);
      NewestSize(enc, events, few, many - 1);
    }
  }

  lemma SizeOf(enc: Serialiser, m: Message)
    requires m.HasEvents()
    ensures |Encode(enc, m)| == EventBytes(enc, m.events) + (if m.Snapshot? then 44 else 41) + |Bool(m.Flag())|
  {
  }

  lemma ShortenedSize(enc: Serialiser, m: Message, few: nat, many: nat)
    requires m.HasEvents() && few <= many <= |m.events|
    ensures |Encode(enc, Shorten(m, few))| <= |Encode(enc, Shorten(m, many))| <= |Encode(enc, m)|
  {
    NewestSize(enc, m.events, few, many);
    NewestSize(enc, m.events, many, |m.events|);
    assert Newest(m.events, |m.events|) == m.events;
    SizeOf(enc, Shorten(m, few));
    SizeOf(enc, Shorten(m, many));
    SizeOf(enc, m);
  }

  predicate Fits(enc: Serialiser, m: Message, count: nat, maxBytes: nat)
    requires m.HasEvents()
  {
    count <= |m.events| && |Encode(enc, Shorten(m, count))| <= maxBytes
  }

  /** The greatest number up to `atMost` that passes, by a plain search downwards. */
  function Greatest(passes: nat -> bool, atMost: nat): Option<nat> {
    if passes(atMost) then Some(atMost)
    else if atMost == 0 then None
    else Greatest(passes, atMost - 1)
  }

  lemma {:induction false} GreatestIs(passes: nat -> bool, atMost: nat, best: int)
    requires -1 <= best <= atMost && (best >= 0 ==> passes(best))
    requires forall k: nat | best < k <= atMost :: !passes(k)
    ensures Greatest(passes, atMost) == if best < 0 then None else Some(best)
  {
    if best < atMost && atMost > 0 {
      GreatestIs(passes, atMost - 1, best);
    }
  }

  lemma {:induction false} GreatestMeaning(passes: nat -> bool, atMost: nat)
    ensures match Greatest(passes, atMost)
            case None => forall k: nat | k <= atMost :: !passes(k)
            case Some(best) => best <= atMost && passes(best) && forall k: nat | best < k <= atMost :: !passes(k)
  {
    if !passes(atMost) && atMost > 0 {
      GreatestMeaning(passes, atMost - 1);
    }
  }

  function Fitting(enc: Serialiser, m: Message, maxBytes: nat): nat -> bool
    requires m.HasEvents()
  {
    (k: nat) => Fits(enc, m, k, maxBytes)
  }

  /** What is sent in place of a message. */
  datatype Sent = Whole(message: Message) | Error

  function BestCount(enc: Serialiser, m: Message, maxBytes: nat): Option<nat>
    requires m.HasEvents()
  {
    Greatest(Fitting(enc, m, maxBytes), |m.events|)
  }

  /** The longest suffix of events that fits: maximal among all counts, and none only when even the
      empty list is too much. */
  lemma BestCountMeaning(enc: Serialiser, m: Message, maxBytes: nat)
    requires m.HasEvents()
    ensures match BestCount(enc, m, maxBytes)
            case None => forall k: nat | k <= |m.events| :: !Fits(enc, m, k, maxBytes)
            case Some(best) =>
              && best <= |m.events|
              && forall k: nat | k <= |m.events| :: Fits(enc, m, k, maxBytes) <==> k <= best
  {
    var passes := Fitting(enc, m, maxBytes);
    GreatestMeaning(passes, |m.events|);
    assert forall k: nat :: passes(k) == Fits(enc, m, k, maxBytes);
    match BestCount(enc, m, maxBytes)
    case None =>
      forall k: nat | k <= |m.events| ensures !Fits(enc, m, k, maxBytes) {
        assert !passes(k);
      }
    case Some(best) =>
      forall k: nat | best < k <= |m.events| ensures !Fits(enc, m, k, maxBytes) {
        assert !passes(k);
      }
      forall k: nat | k <= best ensures Fits(enc, m, k, maxBytes) {
        ShortenedSize(enc, m, k, best);
      }
  }

  function Bounded(enc: Serialiser, m: Message, maxBytes: nat): (sent: Sent)
    ensures sent.Whole? ==> sent.message.HasEvents() == m.HasEvents()
  {
    if |Encode(enc, m)| <= maxBytes then Whole(m)
    else if !m.HasEvents() then Error
    else match BestCount(enc, m, maxBytes)
      case None => Error
      case Some(count) => GreatestMeaning(Fitting(enc, m, maxBytes), |m.events|); Whole(Shorten(m, count))
  }

  /** What replaces a message fits, keeps its newest events, and denies older ones only when it is the
      message itself. */
  lemma BoundedMeaning(enc: Serialiser, m: Message, maxBytes: nat)
    requires m.HasEvents()
    ensures var sent := Bounded(enc, m, maxBytes);
            sent.Whole? ==>
              var x := sent.message;
              && |Encode(enc, x)| <= maxBytes && x.HasEvents() && x.Snapshot? == m.Snapshot?
              && |x.events| <= |m.events| && x.events == Newest(m.events, |x.events|)
              && (!x.Flag() ==> x == m)
  {
    hide Encode, BestCount;
    assert Newest(m.events, |m.events|) == m.events;
    BestCountMeaning(enc, m, maxBytes);
    if |Encode(enc, m)| > maxBytes && BestCount(enc, m, maxBytes).Some? {
      assert Fits(enc, m, BestCount(enc, m, maxBytes).value, maxBytes);
    }
  }

  predicate TooLong(enc: Serialiser, m: Message, maxBytes: nat) { |Encode(enc, m)| > maxBytes }

  /** Nothing longer than what replaces an over-long message would fit, and only an error replaces it when not
      even its frame without events does, or it has none. */
  lemma BoundedIsLongest(enc: Serialiser, m: Message, maxBytes: nat)
    ensures var sent := Bounded(enc, m, maxBytes);
            && (!TooLong(enc, m, maxBytes) ==> sent == Whole(m))
            && (sent.Error? <==>
                  TooLong(enc, m, maxBytes) && (m.HasEvents() ==> TooLong(enc, Shorten(m, 0), maxBytes)))
            && (sent.Whole? && sent.message != m ==>
                  m.HasEvents() && forall k: nat | |sent.message.events| < k <= |m.events| ::
                    TooLong(enc, Shorten(m, k), maxBytes))
  {
    hide Encode, BestCount;
    if m.HasEvents() {
      BestCountMeaning(enc, m, maxBytes);
      BoundedMeaning(enc, m, maxBytes);
      assert Fits(enc, m, 0, maxBytes) == !TooLong(enc, Shorten(m, 0), maxBytes);
      forall k: nat | k <= |m.events| ensures TooLong(enc, Shorten(m, k), maxBytes) == !Fits(enc, m, k, maxBytes) {}
    }
  }

  /** `n` is the greatest number of newest events whose frame is not too long. */
  ghost predicate Longest(enc: Serialiser, m: Message, maxBytes: nat, n: nat)
    requires m.HasEvents()
  {
    && n <= |m.events| && !TooLong(enc, Shorten(m, n), maxBytes)
    && forall k: nat | n < k <= |m.events| :: TooLong(enc, Shorten(m, k), maxBytes)
  }

  /** What is sent: the message if it fits, else as many of its newest events as fit, else the error. */
  ghost predicate Replaces(enc: Serialiser, m: Message, maxBytes: nat, wire: Wire) {
    if !TooLong(enc, m, maxBytes) then wire == Encode(enc, m)
    else if m.HasEvents() && !TooLong(enc, Shorten(m, 0), maxBytes)
    then exists n: nat :: Longest(enc, m, maxBytes, n) && wire == Encode(enc, Shorten(m, n))
    else wire == Oversized(maxBytes)
  }

  function Wired(enc: Serialiser, sent: Sent, maxBytes: nat): Wire {
    match sent case Whole(m) => Encode(enc, m) case Error => Oversized(maxBytes)
  }

  lemma WiredReplaces(enc: Serialiser, m: Message, maxBytes: nat)
    ensures Replaces(enc, m, maxBytes, Wired(enc, Bounded(enc, m, maxBytes), maxBytes))
  {
    hide Encode, Oversized, BestCount;
    if m.HasEvents() {
      BestCountMeaning(enc, m, maxBytes);
      forall k: nat | k <= |m.events| ensures TooLong(enc, Shorten(m, k), maxBytes) == !Fits(enc, m, k, maxBytes) {}
      if TooLong(enc, m, maxBytes) && BestCount(enc, m, maxBytes).Some? {
        assert Longest(enc, m, maxBytes, BestCount(enc, m, maxBytes).value);
      }
    }
  }

  /** Encodes one frame without exceeding the budget, by binary search over the event count. */
  method EncodeBoundedFrame(enc: Serialiser, m: Message, maxBytes: nat) returns (wire: Wire)
    ensures wire == Wired(enc, Bounded(enc, m, maxBytes), maxBytes)
    ensures Replaces(enc, m, maxBytes, wire)
    ensures |Oversized(maxBytes)| <= maxBytes ==> |wire| <= maxBytes
  {
    hide Oversized, Encode, Shorten, Greatest, Replaces, Longest;
    WiredReplaces(enc, m, maxBytes);
    wire := Encode(enc, m);
    if |wire| <= maxBytes {
      return;
    }
    if m.HasEvents() {
      var best: int;
      best, wire := SearchSuffix(enc, m, maxBytes);
      GreatestIs(Fitting(enc, m, maxBytes), |m.events|, best);
      if best >= 0 {
        return;
      }
    }
    wire := Oversized(maxBytes);
  }

  method SearchSuffix(enc: Serialiser, m: Message, maxBytes: nat) returns (best: int, wire: Wire)
    requires m.HasEvents()
    ensures -1 <= best <= |m.events|
    ensures best >= 0 ==> Fits(enc, m, best, maxBytes) && wire == Encode(enc, Shorten(m, best))
    ensures forall k: nat | best < k <= |m.events| :: !Fits(enc, m, k, maxBytes)
  {
    var low, high := 0, |m.events|;
    best, wire := -1, "";
    while low <= high
      invariant 0 <= low && best == low - 1 && best <= high <= |m.events|
      invariant best >= 0 ==> Fits(enc, m, best, maxBytes) && wire == Encode(enc, Shorten(m, best))
      invariant forall k: nat | high < k <= |m.events| :: !Fits(enc, m, k, maxBytes)
      decreases high - low
    {
      var count := (low + high) / 2;
      var candidate := Encode(enc, Shorten(m, count));
      if |candidate| <= maxBytes {
        best, wire := count, candidate;
        low := count + 1;
      } else {
        forall k: nat | count <= k <= |m.events| ensures !Fits(enc, m, k, maxBytes) {
          ShortenedSize(enc, m, count, k);
        }
        high := count - 1;
      }
    }
  }

  /** A frame is shortened, yet loses no event, exactly when it was one byte over the budget and said
      that nothing older remains: the flag it then carries is one byte shorter, and untrue. */
  lemma ShortenedWithoutLoss(enc: Serialiser, m: Message, maxBytes: nat)
    requires m.HasEvents() && |Encode(enc, m)| > maxBytes
    ensures BestCount(enc, m, maxBytes) == Some(|m.events|) <==> |Encode(enc, m)| == maxBytes + 1 && !m.Flag()
  {
    var n := |m.events|;
    assert Newest(m.events, n) == m.events;
    SizeOf(enc, m);
    SizeOf(enc, Shorten(m, n));
    BestCountMeaning(enc, m, maxBytes);
  }
}
