/** The incremental decoder for LF-delimited RPC records. */
module Framing {
  import opened Lines

  datatype FrameError =
    | Oversized(limit: nat)
    | InvalidUtf8
    | InvalidJson(message: string)
    | UnterminatedRecord

  datatype Record<V> = Ok(value: V) | Err(error: FrameError)

  /** What UTF-8 validation and the JSON parser say about one line. */
  type Parser<!V> = Bytes -> Record<V>

  /** Records decoded, bytes still waiting for their line feed, and the failure latch. */
  datatype Decoding<V> = Decoding(records: seq<Record<V>>, rest: Bytes, failed: bool) {
    function After(earlier: seq<Record<V>>): Decoding<V> {
      this.(records := earlier + records)
    }

    /** The records once the stream has ended. */
    function Closed(): seq<Record<V>> {
      if failed || rest == [] then records else records + [Err(UnterminatedRecord)]
    }
  }

  function DropCr(line: Bytes): Bytes {
    if line != [] && line[|line| - 1] == CR then line[..|line| - 1] else line
  }

  /** The reference meaning of a stream already cut into pieces: every piece but the last is
      a complete line; one trailing CR goes, empty lines go, and decoding stops at the first
      over-long piece or parse error. */
  function DecodePieces<V>(limit: nat, parse: Parser<V>, pieces: seq<Bytes>): Decoding<V>
    requires |pieces| > 0
  {
    var line := DropCr(pieces[0]);
    if |pieces[0]| > limit then Decoding([Err(Oversized(limit))], [], true)
    else if |pieces| == 1 then Decoding([], pieces[0], false)
    else if line == [] then DecodePieces(limit, parse, pieces[1..])
    else match parse(line)
      case Err(error) => Decoding([Err(error)], [], true)
      case Ok(value) => DecodePieces(limit, parse, pieces[1..]).After([Ok(value)])
  }

  function Decode<V>(limit: nat, parse: Parser<V>, stream: Bytes): Decoding<V> {
    DecodePieces(limit, parse, Split(stream))
  }

  /** Complete lines first, then whatever the last piece turns into. */
  lemma {:induction false} DecodeMore<V>(limit: nat, parse: Parser<V>, lines: seq<Bytes>, tail: Bytes, more: seq<Bytes>)
    requires |more| > 0 && |tail| <= |more[0]|
    ensures var before := DecodePieces(limit, parse, lines + [tail]);
            DecodePieces(limit, parse, lines + more) ==
            if before.failed then before else DecodePieces(limit, parse, more).After(before.records)
  {
    if lines == [] {
      assert lines + [tail] == [tail] && lines + more == more;
      var d := DecodePieces(limit, parse, more);
      assert d.After([]) == d;
    } else {
      assert (lines + [tail])[1..] == lines[1..] + [tail];
      assert (lines + more)[1..] == lines[1..] + more;
      DecodeMore(limit, parse, lines[1..], tail, more);
      var line := DropCr(lines[0]);
      if |lines[0]| <= limit && line != [] && parse(line).Ok? {
        var d := DecodePieces(limit, parse, more);
        var before := DecodePieces(limit, parse, lines[1..] + [tail]);
        assert ([parse(line)] + before.records) + d.records == [parse(line)] + (before.records + d.records);
      }
    }
  }

  /** A decoder that has not failed has, as its rest, exactly the last piece. */
  lemma {:induction false} RestIsLastPiece<V>(limit: nat, parse: Parser<V>, pieces: seq<Bytes>)
    requires |pieces| > 0 && !DecodePieces(limit, parse, pieces).failed
    ensures DecodePieces(limit, parse, pieces).rest == pieces[|pieces| - 1]
    ensures |pieces[|pieces| - 1]| <= limit
  {
    if |pieces| > 1 {
      RestIsLastPiece(limit, parse, pieces[1..]);
    }
  }

  lemma FirstPieceGrows(tail: Bytes, b: Bytes)
    requires LF !in tail
    ensures |tail| <= |Split(tail + b)[0]|
  {
    var n := FirstLf(tail + b);
    assert forall i | 0 <= i < |tail| :: (tail + b)[i] == tail[i];
  }

  /** Decoding is a stream computation: after `a`, only the unfinished rest is remembered. */
  lemma DecodeAppend<V>(limit: nat, parse: Parser<V>, a: Bytes, b: Bytes)
    ensures var before := Decode(limit, parse, a);
            Decode(limit, parse, a + b) ==
            if before.failed then before else Decode(limit, parse, before.rest + b).After(before.records)
  {
    var p := Split(a);
    var lines, tail := p[..|p| - 1], p[|p| - 1];
    assert p == lines + [tail];
    SplitAppend(a, b);
    var more := Split(tail + b);
    JoinSplit(a);
    assert tail in p;
    FirstPieceGrows(tail, b);
    DecodeMore(limit, parse, lines, tail, more);
    if !Decode(limit, parse, a).failed {
      RestIsLastPiece(limit, parse, p);
    }
  }

  /** The step of the decoding loop, taken at the first line feed of the buffer. */
  lemma DecodeFirst<V>(limit: nat, parse: Parser<V>, s: Bytes)
    ensures var n := FirstLf(s);
            var line := DropCr(s[..n]);
            Decode(limit, parse, s) ==
            if n > limit then Decoding([Err(Oversized(limit))], [], true)
            else if n == |s| then Decoding([], s, false)
            else if line == [] then Decode(limit, parse, s[n + 1..])
            else match parse(line)
              case Err(error) => Decoding([Err(error)], [], true)
              case Ok(value) => Decode(limit, parse, s[n + 1..]).After([Ok(value)])
  {
    hide FirstLf, Split;
    var n := FirstLf(s);
    SplitOnce(s);
    if n < |s| {
      assert Split(s)[1..] == Split(s[n + 1..]);
    } else {
      assert s[..n] == s;
    }
  }

  lemma AfterAfter<V>(d: Decoding<V>, first: seq<Record<V>>, second: seq<Record<V>>)
    ensures d.After(second).After(first) == d.After(first + second)
  {
    assert first + (second + d.records) == (first + second) + d.records;
  }

  // ---- what is reported, line by line ----

  /** A line that does not stop the decoder. */
  predicate Passes<V>(limit: nat, parse: Parser<V>, line: Bytes) {
    |line| <= limit && (DropCr(line) == [] || parse(DropCr(line)).Ok?)
  }

  /** The records of lines that all pass: one for each that is not empty. */
  function RecordsOf<V>(parse: Parser<V>, lines: seq<Bytes>): seq<Record<V>> {
    if lines == [] then []
    else (if DropCr(lines[0]) == [] then [] else [parse(DropCr(lines[0]))]) + RecordsOf(parse, lines[1..])
  }

  predicate EndsInside(stream: Bytes) { stream != [] && stream[|stream| - 1] != LF }

  /** Line `k` is the first that does not pass; the last piece, `lines[n]`, need only be short enough. */
  predicate StopsAt<V>(limit: nat, parse: Parser<V>, lines: seq<Bytes>, k: nat)
    requires k < |lines|
  {
    && (forall j | 0 <= j < k :: Passes(limit, parse, lines[j]))
    && (if k == |lines| - 1 then |lines[k]| > limit else !Passes(limit, parse, lines[k]))
  }

  ghost predicate NeverStops<V>(limit: nat, parse: Parser<V>, lines: seq<Bytes>) {
    forall k | 0 <= k < |lines| :: !StopsAt(limit, parse, lines, k)
  }

  /** Every record up to the first line at fault and then its error; without such a line every record, and an
      error if and only if the stream ends inside a line. */
  ghost predicate Reports<V>(limit: nat, parse: Parser<V>, stream: Bytes, records: seq<Record<V>>) {
    var lines := Split(stream);
    && (NeverStops(limit, parse, lines) ==>
          records == RecordsOf(parse, lines[..|lines| - 1])
                     + (if EndsInside(stream) then [Err(UnterminatedRecord)] else []))
    && (forall k | 0 <= k < |lines| && StopsAt(limit, parse, lines, k) ::
          records == RecordsOf(parse, lines[..k])
                     + [if |lines[k]| > limit then Err(Oversized(limit)) else parse(DropCr(lines[k]))])
  }

  lemma StopsLater<V>(limit: nat, parse: Parser<V>, lines: seq<Bytes>, k: nat)
    requires 0 < k < |lines| && Passes(limit, parse, lines[0])
    ensures StopsAt(limit, parse, lines, k) <==> StopsAt(limit, parse, lines[1..], k - 1)
  {
    hide Passes;
    var rest := lines[1..];
    if StopsAt(limit, parse, lines, k) {
      assert forall j | 0 <= j < k - 1 :: rest[j] == lines[j + 1];
    }
    if StopsAt(limit, parse, rest, k - 1) {
      assert forall j | 0 < j < k :: lines[j] == rest[j - 1];
    }
  }

  lemma {:induction false} StoppedDecoding<V>(limit: nat, parse: Parser<V>, lines: seq<Bytes>, k: nat)
    requires k < |lines| && StopsAt(limit, parse, lines, k)
    ensures DecodePieces(limit, parse, lines) ==
            Decoding(RecordsOf(parse, lines[..k])
                     + [if |lines[k]| > limit then Err(Oversized(limit)) else parse(DropCr(lines[k]))], [], true)
  {
    if k > 0 {
      assert Passes(limit, parse, lines[0]);
      StopsLater(limit, parse, lines, k);
      hide StopsAt, DropCr;
      StoppedDecoding(limit, parse, lines[1..], k - 1);
      assert lines[..k][0] == lines[0] && lines[..k][1..] == lines[1..][..k - 1];
    }
  }

  lemma {:induction false} UnstoppedDecoding<V>(limit: nat, parse: Parser<V>, lines: seq<Bytes>)
    requires |lines| > 0 && NeverStops(limit, parse, lines)
    ensures var n := |lines| - 1;
            DecodePieces(limit, parse, lines) == Decoding(RecordsOf(parse, lines[..n]), lines[n], false)
  {
    var n := |lines| - 1;
    assert !StopsAt(limit, parse, lines, 0);
    if n > 0 {
      forall k | 0 <= k < n ensures !StopsAt(limit, parse, lines[1..], k) {
        StopsLater(limit, parse, lines, k + 1);
      }
      hide StopsAt, DropCr;
      UnstoppedDecoding(limit, parse, lines[1..]);
      assert lines[..n][0] == lines[0] && lines[..n][1..] == lines[1..][..n - 1];
    }
  }

  /** What a closed decoding hands out, stated on the lines of the stream. */
  lemma ClosedReports<V>(limit: nat, parse: Parser<V>, stream: Bytes)
    ensures Reports(limit, parse, stream, Decode(limit, parse, stream).Closed())
  {
    hide Split, DecodePieces, StopsAt, RecordsOf, FirstLf;
    var lines := Split(stream);
    LastPiece(stream);
    if NeverStops(limit, parse, lines) {
      UnstoppedDecoding(limit, parse, lines);
    }
    forall k | 0 <= k < |lines| && StopsAt(limit, parse, lines, k)
      ensures Decode(limit, parse, stream).Closed() ==
              RecordsOf(parse, lines[..k])
              + [if |lines[k]| > limit then Err(Oversized(limit)) else parse(DropCr(lines[k]))]
    {
      StoppedDecoding(limit, parse, lines, k);
    }
  }

  lemma EndsAsItRests<V>(limit: nat, parse: Parser<V>, stream: Bytes)
    requires !Decode(limit, parse, stream).failed
    ensures Decode(limit, parse, stream).rest == [] <==> !EndsInside(stream)
  {
    RestIsLastPiece(limit, parse, Split(stream));
    LastPiece(stream);
  }

  class JsonlDecoder<!V> {
    const maxRecordBytes: nat
    const parse: Parser<V>
    var buffer: Bytes
    var scanned: nat
    var failed: bool

    ghost var stream: Bytes            // every byte pushed before the stream was ended
    ghost var emitted: seq<Record<V>>  // every record handed out
    ghost var ended: bool              // `Finish` reported an unterminated record
    ghost var looked: nat              // byte inspections made by the newline search

    ghost predicate Valid()
      reads this
    {
      var whole := Decode(maxRecordBytes, parse, stream);
      && emitted == (if ended then whole.Closed() else whole.records)
      && failed == (whole.failed || ended)
      && (ended ==> !whole.failed && whole.rest != [])
      && looked <= |stream|
      && (!whole.failed ==> looked == |stream|)
      && (!failed ==> buffer == whole.rest && scanned == |buffer| && |buffer| <= maxRecordBytes && LF !in buffer)
    }

    constructor (maxRecordBytes: nat, parse: Parser<V>)
      ensures Valid() && stream == [] && emitted == [] && !ended
      ensures this.maxRecordBytes == maxRecordBytes && this.parse == parse
    {
      this.maxRecordBytes, this.parse := maxRecordBytes, parse;
      buffer, scanned, failed := [], 0, false;
      stream, emitted, ended, looked := [], [], false, 0;
    }

    /** The newline search resumes where the last one stopped. */
    method FindNewline() returns (newline: nat)
      requires scanned <= |buffer| && LF !in buffer[..scanned]
      modifies `looked
      ensures newline == FirstLf(buffer)
      ensures looked == old(looked) + (if newline == |buffer| then newline else newline + 1) - scanned
    {
      newline := scanned + FirstLf(buffer[scanned..]);
      assert buffer[..newline] == buffer[..scanned] + buffer[scanned..][..newline - scanned];
      FirstLfIs(buffer, newline);
      looked := looked + (if newline == |buffer| then newline else newline + 1) - scanned;
    }

    /** The decoding loop: drains every complete line of the buffer, or stops at the first failure. */
    method Drain() returns (records: seq<Record<V>>)
      requires !failed && scanned <= |buffer| && LF !in buffer[..scanned]
      modifies `buffer, `scanned, `failed, `looked
      ensures var d := Decode(maxRecordBytes, parse, old(buffer));
              && records == d.records && failed == d.failed
              && (!failed ==> buffer == d.rest && scanned == |buffer| && |buffer| <= maxRecordBytes && LF !in buffer)
      ensures looked <= old(looked) + |old(buffer)| - old(scanned)
      ensures !failed ==> looked == old(looked) + |old(buffer)| - old(scanned)
    {
      hide Decode, FirstLf, DropCr;
      records := [];
      assert Decode(maxRecordBytes, parse, buffer).After(records) == Decode(maxRecordBytes, parse, buffer);
      while true
        invariant !failed
        invariant scanned <= |buffer| && LF !in buffer[..scanned]
        invariant looked + |buffer| - scanned == old(looked) + |old(buffer)| - old(scanned)
        invariant Decode(maxRecordBytes, parse, old(buffer)) == Decode(maxRecordBytes, parse, buffer).After(records)
        decreases |buffer|
      {
        DecodeFirst(maxRecordBytes, parse, buffer);
        var newline := FindNewline();
        if newline == |buffer| {
          assert buffer[..newline] == buffer;
          scanned := |buffer|;
          if |buffer| > maxRecordBytes {
            failed := true;
            records := records + [Err(Oversized(maxRecordBytes))];
          }
          break;
        }
        if newline > maxRecordBytes {
          failed := true;
          records := records + [Err(Oversized(maxRecordBytes))];
          break;
        }
        var line := DropCr(buffer[..newline]);
        buffer, scanned := buffer[newline + 1..], 0;
        if line == [] {
          continue;
        }
        var parsed := parse(line);
        AfterAfter(Decode(maxRecordBytes, parse, buffer), records, [parsed]);
        records := records + [parsed];
        if parsed.Err? {
          failed := true;
          break;
        }
      }
    }

    method Push(bytes: Bytes) returns (records: seq<Record<V>>)
      requires Valid()
      modifies this
      ensures Valid()
      ensures ended == old(ended)
      ensures stream == if ended then old(stream) else old(stream) + bytes
      ensures emitted == old(emitted) + records
      ensures !failed ==> |buffer| <= maxRecordBytes
    {
      DecodeAppend(maxRecordBytes, parse, stream, bytes);
      if !ended {
        stream := stream + bytes;
      }
      if failed {
        return [];
      }
      assert (buffer + bytes)[..scanned] == buffer;
      buffer := buffer + bytes;
      records := Drain();
      emitted := emitted + records;
    }

    method Finish() returns (last: seq<Record<V>>)
      requires Valid()
      modifies this
      ensures Valid()
      ensures stream == old(stream) && emitted == old(emitted) + last
      ensures emitted == Decode(maxRecordBytes, parse, stream).Closed()
      ensures last == if !old(failed) && EndsInside(stream) then [Err(UnterminatedRecord)] else []
    {
      if !failed {
        EndsAsItRests(maxRecordBytes, parse, stream);
      }
      if failed || buffer == [] {
        return [];
      }
      failed := true;
      last := [Err(UnterminatedRecord)];
      ended := true;
      emitted := emitted + last;
    }
  }

  function Flatten(chunks: seq<Bytes>): Bytes {
    if chunks == [] then [] else Flatten(chunks[..|chunks| - 1]) + chunks[|chunks| - 1]
  }

  lemma FlattenOneMore(chunks: seq<Bytes>, i: nat)
    requires i < |chunks|
    ensures Flatten(chunks[..i + 1]) == Flatten(chunks[..i]) + chunks[i]
  {
    assert chunks[..i + 1][..i] == chunks[..i];
  }

  /** Pushing a stream in any chunks and finishing hands out what one look at the whole does. */
  method DecodeChunks<V>(limit: nat, parse: Parser<V>, chunks: seq<Bytes>) returns (records: seq<Record<V>>)
    ensures records == Decode(limit, parse, Flatten(chunks)).Closed()
    ensures Reports(limit, parse, Flatten(chunks), records)
  {
    ClosedReports(limit, parse, Flatten(chunks));
    assert Flatten(chunks[..0]) == [];
    hide Decode, Split, FirstLf, Flatten;
    var decoder := new JsonlDecoder(limit, parse);
    records := [];
    for i := 0 to |chunks|
      invariant fresh(decoder) && decoder.Valid() && !decoder.ended
      invariant decoder.maxRecordBytes == limit && decoder.parse == parse
      invariant decoder.stream == Flatten(chunks[..i]) && decoder.emitted == records
    {
      var more := decoder.Push(chunks[i]);
      records := records + more;
      FlattenOneMore(chunks, i);
    }
    assert chunks[..|chunks|] == chunks;
    var last := decoder.Finish();
    records := records + last;
  }

  /** A sender's stream: each record, optionally followed by CR, then LF. */
  function Sent(lines: seq<(Bytes, bool)>): Bytes {
    if lines == [] then [] else lines[0].0 + (if lines[0].1 then [CR] else []) + [LF] + Sent(lines[1..])
  }

  ghost predicate Sendable<V>(limit: nat, parse: Parser<V>, line: Bytes, cr: bool) {
    && LF !in line && line != [] && parse(line).Ok?
    && |line| + (if cr then 1 else 0) <= limit
    && (!cr ==> line[|line| - 1] != CR)
  }

  /** Round trip: every record sent within the limit is received, in order, whatever the line ending. */
  lemma {:induction false} SentIsReceived<V>(limit: nat, parse: Parser<V>, lines: seq<(Bytes, bool)>)
    requires forall l <- lines :: Sendable(limit, parse, l.0, l.1)
    ensures Decode(limit, parse, Sent(lines)) ==
            Decoding(seq(|lines|, i requires 0 <= i < |lines| => parse(lines[i].0)), [], false)
  {
    hide DecodePieces, Split, FirstLf;
    var s := Sent(lines);
    DecodeFirst(limit, parse, s);
    if lines != [] {
      var piece := lines[0].0 + (if lines[0].1 then [CR] else []);
      assert Sendable(limit, parse, lines[0].0, lines[0].1);
      FirstLfIs(s, |piece|) by { assert s[..|piece|] == piece; }
      assert s[..|piece|] == piece && s[|piece| + 1..] == Sent(lines[1..]);
      assert DropCr(piece) == lines[0].0;
      SentIsReceived(limit, parse, lines[1..]);
      assert seq(|lines|, i requires 0 <= i < |lines| => parse(lines[i].0)) ==
             [parse(lines[0].0)] + seq(|lines| - 1, i requires 0 <= i < |lines| - 1 => parse(lines[1..][i].0));
    }
  }

  /** A sender's stream received in any chunks, perhaps cut inside a further line: the records sent, and then an
      error if and only if something of that line came. */
  method ReceiveSent<V>(limit: nat, parse: Parser<V>, lines: seq<(Bytes, bool)>, cut: Bytes, chunks: seq<Bytes>)
    returns (records: seq<Record<V>>)
    requires forall l <- lines :: Sendable(limit, parse, l.0, l.1)
    requires LF !in cut && |cut| <= limit && Flatten(chunks) == Sent(lines) + cut
    ensures records == seq(|lines|, i requires 0 <= i < |lines| => parse(lines[i].0))
                       + (if cut != [] then [Err(UnterminatedRecord)] else [])
  {
    hide Decode, Split, FirstLf, Flatten, Sent, Reports;
    records := DecodeChunks(limit, parse, chunks);
    SentIsReceived(limit, parse, lines);
    DecodeAppend(limit, parse, Sent(lines), cut);
    RestOfCut(limit, parse, cut);
  }

  lemma RestOfCut<V>(limit: nat, parse: Parser<V>, cut: Bytes)
    requires LF !in cut && |cut| <= limit
    ensures Decode(limit, parse, [] + cut) == Decoding([], cut, false)
  {
    assert [] + cut == cut && cut[..|cut|] == cut;
    FirstLfIs(cut, |cut|);
  }
}
