/** Writing the execution-history log across crashes: appends, writes that stop part-way, reopens. */
module HistoryStore {
  import Basics
  import opened Lines
  import opened HistoryPages

  const HEADER_LIMIT: nat := 64 * 1024
  const PAGE_RECORDS: nat := 1024
  const QUEUE_CAPACITY: nat := 1024

  /** One life of the writer: the records written in full, then what a write that stopped part-way left. */
  datatype Session<R> = Session(written: seq<R>, partial: Bytes)

  /** Records are encoded without a raw line feed (section 7 of RFC 8259) and read back as themselves. */
  ghost predicate Faithful<R(!new)>(header: Bytes, encode: R -> Bytes, classify: Classifier<R>) {
    && LF !in header && |header| + 1 <= HEADER_LIMIT && !classify(header).Undecodable?
    && classify([]) == Blank
    && forall r :: LF !in encode(r) && classify(encode(r)) == Event(r)
  }

  ghost predicate Partials<R>(past: seq<Session<R>>) {
    forall s <- past :: LF !in s.partial
  }

  function Encoded<R>(encode: R -> Bytes, records: seq<R>): Bytes {
    if records == [] then [] else encode(records[0]) + [LF] + Encoded(encode, records[1..])
  }

  function EncodedLines<R>(encode: R -> Bytes, records: seq<R>): seq<Bytes> {
    if records == [] then [] else [encode(records[0])] + EncodedLines(encode, records[1..])
  }

  /** Reopening separates a partial tail from what will follow. */
  function Separated(file: Bytes): Bytes {
    if file != [] && file[|file| - 1] != LF then file + [LF] else file
  }

  /** The file after the given lives; none yet means no file. */
  function Image<R>(header: Bytes, encode: R -> Bytes, past: seq<Session<R>>): Bytes
    decreases |past|, 0
  {
    if past == [] then []
    else
      var last := past[|past| - 1];
      Opened(header, encode, past[..|past| - 1]) + Encoded(encode, last.written) + last.partial
  }

  function Opened<R>(header: Bytes, encode: R -> Bytes, past: seq<Session<R>>): Bytes
    decreases |past|, 1
  {
    if past == [] then header + [LF] else Separated(Image(header, encode, past))
  }

  /** What reading must give back: complete records, and a partial tail only if it parses by itself. */
  function Survivors<R>(classify: Classifier<R>, past: seq<Session<R>>): seq<R> {
    if past == [] then []
    else
      var last := past[|past| - 1];
      Survivors(classify, past[..|past| - 1]) + last.written
      + (match classify(last.partial) case Event(r) => [r] case _ => [])
  }

  ghost predicate AllDecodable<R(!new)>(classify: Classifier<R>, past: seq<Session<R>>) {
    forall s <- past :: !classify(s.partial).Undecodable?
  }

  // ---- surveying the image ----

  function Width(lines: seq<Bytes>): nat {
    if lines == [] then 0 else |lines[0]| + 1 + Width(lines[1..])
  }

  lemma {:induction false} SurveyConcat<R>(classify: Classifier<R>, a: seq<Bytes>, b: seq<Bytes>, at: nat)
    ensures SurveyLines(classify, a + b, at) ==
            SurveyLines(classify, a, at).Then(SurveyLines(classify, b, at + Width(a)))
  {
    hide SurveyLine;
    if a == [] {
      assert a + b == b;
      var s := SurveyLines(classify, b, at);
      assert Nothing().Then(s) == s;
    } else {
      assert (a + b)[1..] == a[1..] + b;
      SurveyConcat(classify, a[1..], b, at + |a[0]| + 1);
      ThenAssociates(SurveyLine(classify, a[0], at), SurveyLines(classify, a[1..], at + |a[0]| + 1),
                     SurveyLines(classify, b, at + Width(a)));
    }
  }

  lemma {:induction false} SurveyEncoded<R(!new)>(
      header: Bytes, encode: R -> Bytes, classify: Classifier<R>, records: seq<R>, at: nat)
    requires Faithful(header, encode, classify)
    ensures SurveyLines(classify, EncodedLines(encode, records), at) == Survey(records, [], true)
  {
    hide Width;
    if records != [] {
      var lines := EncodedLines(encode, records);
      assert lines[1..] == EncodedLines(encode, records[1..]);
      SurveyEncoded(header, encode, classify, records[1..], at + |lines[0]| + 1);
    }
  }

  lemma {:induction false} SplitEncoded<R(!new)>(
      header: Bytes, encode: R -> Bytes, classify: Classifier<R>, records: seq<R>, partial: Bytes)
    requires Faithful(header, encode, classify) && LF !in partial
    ensures Split(Encoded(encode, records) + partial) == EncodedLines(encode, records) + [partial]
  {
    hide FirstLf;
    if records == [] {
      assert [] + partial == partial && partial[..|partial|] == partial;
      FirstLfIs(partial, |partial|);
    } else {
      var first, rest := encode(records[0]), Encoded(encode, records[1..]) + partial;
      var whole := Encoded(encode, records) + partial;
      assert whole == first + [LF] + rest;
      assert whole[..|first|] == first && whole[|first| + 1..] == rest;
      FirstLfIs(whole, |first|);
      SplitEncoded(header, encode, classify, records[1..], partial);
    }
  }

  lemma SplitTerminated(line: Bytes)
    requires LF !in line
    ensures Split(line + [LF]) == [line, []]
  {
    var s := line + [LF];
    assert s[..|line|] == line && s[|line| + 1..] == [];
    FirstLfIs(s, |line|);
  }

  /** Separating keeps every piece and leaves an empty last one. */
  lemma SplitSeparated(s: Bytes)
    requires s != []
    ensures var p := Split(s);
            Split(Separated(s)) == (if p[|p| - 1] == [] then p[..|p| - 1] else p) + [[]]
  {
    hide Split, FirstLf;
    LastPiece(s);
    var p := Split(s);
    var tail := p[|p| - 1];
    assert p == p[..|p| - 1] + [tail];
    if tail != [] {
      SplitAppend(s, [LF]);
      JoinSplit(s);
      assert tail in p;
      SplitTerminated(tail);
      assert p[..|p| - 1] + [tail, []] == p + [[]];
    }
  }

  lemma SplitNothing()
    ensures Split([]) == [[]]
  {
  }

  /** The pieces of the file under an open writer: `body` complete lines, then an empty one. */
  lemma {:induction false} OpenedPieces<R(!new)>(
      header: Bytes, encode: R -> Bytes, classify: Classifier<R>, past: seq<Session<R>>)
    returns (body: seq<Bytes>)
    requires Faithful(header, encode, classify) && Partials(past)
    ensures Split(Opened(header, encode, past)) == [header] + body + [[]]
    ensures Tells(classify, body, header, past)
    decreases |past|, 1
  {
    hide Split, FirstLf;
    if past == [] {
      body := [];
      SplitTerminated(header);
    } else {
      var pieces := ImagePieces(header, encode, classify, past);
      var partial := past[|past| - 1].partial;
      var file := Image(header, encode, past);
      SplitNothing();
      SplitSeparated(file);
      var p := [header] + pieces + [partial];
      assert p[..|p| - 1] == [header] + pieces;
      if partial == [] {
        body := pieces;
        BlankTailTellsNothing(classify, pieces, |header| + 1);
      } else {
        body := pieces + [partial];
        assert p == [header] + body;
      }
    }
  }

  /** Reading `lines`, the first of them right after the header, gives what `past` must give. */
  ghost predicate Tells<R(!new)>(classify: Classifier<R>, lines: seq<Bytes>, header: Bytes, past: seq<Session<R>>) {
    var s := SurveyLines(classify, lines, |header| + 1);
    s.records == Survivors(classify, past) && s.readable == AllDecodable(classify, past)
  }

  lemma BlankTailTellsNothing<R>(classify: Classifier<R>, lines: seq<Bytes>, at: nat)
    requires classify([]) == Blank
    ensures SurveyLines(classify, lines + [[]], at) == SurveyLines(classify, lines, at)
  {
    SurveyConcat(classify, lines, [[]], at);
    SurveyOne(classify, [], at + Width(lines));
    var s := SurveyLines(classify, lines, at);
    assert s.Then(Nothing()) == s;
  }

  /** The pieces of the file at any moment: complete lines, then the tail of the current life. */
  lemma {:induction false} ImagePieces<R(!new)>(
      header: Bytes, encode: R -> Bytes, classify: Classifier<R>, past: seq<Session<R>>)
    returns (pieces: seq<Bytes>)
    requires Faithful(header, encode, classify) && Partials(past) && past != []
    ensures Split(Image(header, encode, past)) == [header] + pieces + [past[|past| - 1].partial]
    ensures Tells(classify, pieces + [past[|past| - 1].partial], header, past)
    decreases |past|, 0
  {
    var earlier, last := past[..|past| - 1], past[|past| - 1];
    assert past == earlier + [last];
    var body := OpenedPieces(header, encode, classify, earlier);
    var lines := EncodedLines(encode, last.written);
    pieces := body + lines;
    ImageSplit(header, encode, classify, past, body);
    LifeTells(header, encode, classify, earlier, last, body);
    assert pieces + [last.partial] == body + (lines + [last.partial]);
  }

  lemma ImageSplit<R(!new)>(
      header: Bytes, encode: R -> Bytes, classify: Classifier<R>, past: seq<Session<R>>, body: seq<Bytes>)
    requires Faithful(header, encode, classify) && Partials(past) && past != []
    requires Split(Opened(header, encode, past[..|past| - 1])) == [header] + body + [[]]
    ensures var last := past[|past| - 1];
            Split(Image(header, encode, past)) ==
            [header] + (body + EncodedLines(encode, last.written)) + [last.partial]
  {
    hide Split, FirstLf, Encoded, EncodedLines;
    var last := past[|past| - 1];
    assert last in past;
    var open := Opened(header, encode, past[..|past| - 1]);
    LifeSplit(header, encode, classify, last, open, [header] + body);
    var lines := EncodedLines(encode, last.written);
    assert [header] + body + (lines + [last.partial]) == [header] + (body + lines) + [last.partial];
  }

  lemma LifeSplit<R(!new)>(
      header: Bytes, encode: R -> Bytes, classify: Classifier<R>, last: Session<R>, open: Bytes, pieces: seq<Bytes>)
    requires Faithful(header, encode, classify) && LF !in last.partial
    requires Split(open) == pieces + [[]]
    ensures Split(open + Encoded(encode, last.written) + last.partial) ==
            pieces + (EncodedLines(encode, last.written) + [last.partial])
  {
    hide Split, FirstLf, Encoded, EncodedLines;
    var added := Encoded(encode, last.written) + last.partial;
    assert open + Encoded(encode, last.written) + last.partial == open + added && [] + added == added;
    SplitAppend(open, added);
    SplitEncoded(header, encode, classify, last.written, last.partial);
    assert (pieces + [[]])[..|pieces|] == pieces;
  }

  lemma SurveyOne<R>(classify: Classifier<R>, line: Bytes, at: nat)
    ensures SurveyLines(classify, [line], at) == SurveyLine(classify, line, at)
  {
    assert SurveyLines(classify, [line][1..], at + |line| + 1) == Nothing<R>();
  }

  lemma LifeSurvey<R(!new)>(
      header: Bytes, encode: R -> Bytes, classify: Classifier<R>, last: Session<R>, body: seq<Bytes>, at: nat)
    requires Faithful(header, encode, classify)
    ensures var lines := EncodedLines(encode, last.written);
            var tail := SurveyLine(classify, last.partial, at + Width(body) + Width(lines));
            SurveyLines(classify, body + (lines + [last.partial]), at) ==
            SurveyLines(classify, body, at).Then(Survey(last.written, [], true).Then(tail))
  {
    hide SurveyLines, Width;
    var lines := EncodedLines(encode, last.written);
    SurveyConcat(classify, body, lines + [last.partial], at);
    SurveyConcat(classify, lines, [last.partial], at + Width(body));
    SurveyEncoded(header, encode, classify, last.written, at + Width(body));
    SurveyOne(classify, last.partial, at + Width(body) + Width(lines));
  }

  lemma SurvivorsOfOneMore<R(!new)>(classify: Classifier<R>, earlier: seq<Session<R>>, last: Session<R>, at: nat)
    ensures var tail := SurveyLine(classify, last.partial, at);
            && Survivors(classify, earlier + [last]) == Survivors(classify, earlier) + (last.written + tail.records)
            && AllDecodable(classify, earlier + [last]) == (AllDecodable(classify, earlier) && tail.readable)
  {
    var past := earlier + [last];
    assert past[..|past| - 1] == earlier;
    assert forall s :: s in past <==> s in earlier || s == last;
  }

  lemma LifeTells<R(!new)>(
      header: Bytes, encode: R -> Bytes, classify: Classifier<R>, earlier: seq<Session<R>>, last: Session<R>,
      body: seq<Bytes>)
    requires Faithful(header, encode, classify)
    requires Tells(classify, body, header, earlier)
    ensures Tells(classify, body + (EncodedLines(encode, last.written) + [last.partial]), header, earlier + [last])
  {
    var at := |header| + 1;
    LifeSurvey(header, encode, classify, last, body, at);
    SurvivorsOfOneMore(classify, earlier, last, at + Width(body) + Width(EncodedLines(encode, last.written)));
  }

  /** The header stays the first line of every image. */
  lemma HeaderLine<R(!new)>(header: Bytes, encode: R -> Bytes, classify: Classifier<R>, past: seq<Session<R>>)
    returns (pieces: seq<Bytes>)
    requires Faithful(header, encode, classify) && Partials(past) && past != []
    ensures var file := Image(header, encode, past);
            && FirstLf(file) == |header| < |file| && file[..|header|] == header
            && Split(file[|header| + 1..]) == pieces
            && Tells(classify, pieces, header, past)
  {
    var file := Image(header, encode, past);
    var body := ImagePieces(header, encode, classify, past);
    pieces := body + [past[|past| - 1].partial];
    var n := FirstLf(file);
    assert Split(file) == [header] + pieces;
    assert n < |file| ==> Split(file) == [file[..n]] + Split(file[n + 1..]);
    assert Split(file)[1..] == pieces;
  }

  /** Reading the whole file gives back every complete record, and each partial tail that parses by
      itself, in order; and it succeeds exactly when no tail was cut inside a character. */
  lemma ReadBack<R(!new)>(header: Bytes, encode: R -> Bytes, classify: Classifier<R>, past: seq<Session<R>>)
    requires Faithful(header, encode, classify) && Partials(past) && past != []
    ensures var file := Image(header, encode, past);
            var all := SurveyFrom(classify, file, Body(file, 0));
            && HeaderReadable(classify, file, 0)
            && all.records == Survivors(classify, past)
            && all.readable == AllDecodable(classify, past)
  {
    var file := Image(header, encode, past);
    var pieces := HeaderLine(header, encode, classify, past);
    assert file[0..] == file;
    assert LineAt(file, 0) == header && Body(file, 0) == |header| + 1;
  }

  lemma ImageOpen<R>(header: Bytes, encode: R -> Bytes, past: seq<Session<R>>)
    ensures Image(header, encode, past + [Session([], [])]) == Opened(header, encode, past)
  {
    assert (past + [Session([], [])])[..|past|] == past;
  }

  lemma {:induction false} EncodedSnoc<R>(encode: R -> Bytes, records: seq<R>, record: R)
    ensures Encoded(encode, records + [record]) == Encoded(encode, records) + (encode(record) + [LF])
  {
    var more := records + [record];
    if records == [] {
      assert more == [record] && more[1..] == [];
      assert Encoded(encode, more) == encode(record) + [LF] + [];
    } else {
      assert more[0] == records[0] && more[1..] == records[1..] + [record];
      EncodedSnoc(encode, records[1..], record);
      assert Encoded(encode, more) ==
             encode(records[0]) + [LF] + (Encoded(encode, records[1..]) + (encode(record) + [LF]));
    }
  }

  /** A complete append extends what the current life has written. */
  lemma ImageAppend<R>(header: Bytes, encode: R -> Bytes, past: seq<Session<R>>, record: R)
    requires past != [] && past[|past| - 1].partial == []
    ensures var n := |past| - 1;
            Image(header, encode, past[n := Session(past[n].written + [record], [])]) ==
            Image(header, encode, past) + (encode(record) + [LF])
  {
    var n := |past| - 1;
    var more := past[n := Session(past[n].written + [record], [])];
    assert more[..n] == past[..n];
    EncodedSnoc(encode, past[n].written, record);
  }

  const PARTIAL_TAIL: Warning := Startup("partial final execution-history record was preserved")

  predicate HeaderAccepted(file: Bytes, accepts: Bytes -> bool) {
    var end := FirstLf(file);
    end < |file| && end + 1 <= HEADER_LIMIT && accepts(file[..end])
  }

  lemma HeaderOfImage<R(!new)>(
      header: Bytes, encode: R -> Bytes, classify: Classifier<R>, past: seq<Session<R>>, accepts: Bytes -> bool)
    requires Faithful(header, encode, classify) && Partials(past)
    ensures var file := Image(header, encode, past);
            && (file == [] <==> past == [])
            && (past != [] ==> HeaderAccepted(file, accepts) == accepts(header))
  {
    if past != [] {
      var _ := HeaderLine(header, encode, classify, past);
    }
  }

  lemma OpenedIs<R>(header: Bytes, encode: R -> Bytes, past: seq<Session<R>>)
    ensures Opened(header, encode, past) ==
            if past == [] then header + [LF] else Separated(Image(header, encode, past))
  {
  }

  /** What is cut off a header line is no header line. */
  lemma TornHeader(header: Bytes, file: Bytes, accepts: Bytes -> bool)
    requires LF !in header && |header| + 1 <= HEADER_LIMIT && file <= header + [LF]
    ensures HeaderAccepted(file, accepts) == (file == header + [LF] && accepts(header))
    ensures file != header + [LF] ==> LF !in file
  {
    if file == header + [LF] {
      assert file[..|header|] == header;
      FirstLfIs(file, |header|);
    } else {
      assert file == header[..|file|];
      assert file[..|file|] == file;
      FirstLfIs(file, |file|);
    }
  }

  lemma ImageEndsUnfinished<R>(header: Bytes, encode: R -> Bytes, past: seq<Session<R>>)
    requires Partials(past) && past != [] && past[|past| - 1].partial != []
    ensures var file := Image(header, encode, past); file != [] && file[|file| - 1] != LF
  {
    hide Opened, Encoded;
    var partial := past[|past| - 1].partial;
    assert past[|past| - 1] in past && partial[|partial| - 1] in partial;
  }

  lemma FaithfulBlank<R(!new)>(header: Bytes, encode: R -> Bytes, classify: Classifier<R>)
    requires Faithful(header, encode, classify)
    ensures classify([]) == Blank
  {
  }

  lemma PartialsOfOneMore<R>(past: seq<Session<R>>)
    requires Partials(past)
    ensures Partials(past + [Session([], [])])
  {
  }

  /** How many of `records` get to the file whole, when `reaches(k)` bytes of the k-th do and the writer ends
      with the first that falls short. */
  function WrittenWhole<R>(encode: R -> Bytes, records: seq<R>, reaches: nat -> nat): (n: nat)
    ensures n <= |records|
    ensures forall k :: 0 <= k < n ==> reaches(k) > |encode(records[k])|
    ensures n < |records| ==> reaches(n) <= |encode(records[n])|
  {
    if records == [] then 0
    else
      var last := |records| - 1;
      var n := WrittenWhole(encode, records[..last], reaches);
      if n == last && reaches(n) > |encode(records[n])| then n + 1 else n
  }

  /** How the last writer came to its end. The lock file is made by a writer and removed when the writer is
      dropped; a killed process drops nothing. */
  datatype Writer = NeverOpened | Running | Dropped | Killed

  /** The file, the writer's thread with its queue, and the handle that fills the queue. */
  class HistoryStore<R(!new)> {
    const header: Bytes
    const encode: R -> Bytes
    const classify: Classifier<R>
    var data: Bytes             // the file on disk; it outlives every writer
    var startup: seq<Warning>   // warnings of the last open
    var locked: bool            // the lock file exists
    var healthy: bool           // the writer runs and no error has been latched
    var queue: seq<R>           // records accepted and not yet taken by the writer
    var writer: Writer

    ghost var past: seq<Session<R>>
    ghost var accepted: seq<R>  // by this life of the writer

    /** The header line is complete. */
    ghost predicate Headed()
      reads this
    {
      past != [] || data == header + [LF]
    }

    /** The file is as its history says, or has the beginning of a header line. What was written is what was
        accepted first, and while the writer runs the queue holds the rest. */
    ghost predicate Valid()
      reads this
    {
      && Faithful(header, encode, classify) && Partials(past)
      && (if past == [] then data <= header + [LF] else data == Image(header, encode, past))
      && (locked <==> writer.Running? || writer.Killed?)
      && (healthy ==> writer.Running?)
      && (writer.NeverOpened? ==> past == [])
      && (past != [] ==> past[|past| - 1].written <= accepted)
      && (if writer.Running? then
            && past != [] && past[|past| - 1].partial == []
            && accepted == past[|past| - 1].written + queue && |queue| <= QUEUE_CAPACITY
          else queue == [])
    }

    constructor (header: Bytes, encode: R -> Bytes, classify: Classifier<R>)
      requires Faithful(header, encode, classify)
      ensures Valid() && past == [] && data == [] && writer == NeverOpened
      ensures this.header == header && this.encode == encode && this.classify == classify
    {
      this.header, this.encode, this.classify := header, encode, classify;
      data, startup, locked, healthy, queue, writer := [], [], false, false, [], NeverOpened;
      past, accepted := [], [];
    }

    /** What an open has to write: the header line, or the line feed after a partial tail. */
    function Missing(): Bytes
      reads `data
    {
      if data == [] then header + [LF] else if data[|data| - 1] != LF then [LF] else []
    }

    /** Creates the file, or checks its header line (`accepts` is the identity and version check)
        and separates a partial tail; `reaches` bytes get to the file. */
    method ValidateOrInitialize(accepts: Bytes -> bool, reaches: nat) returns (ok: bool, warnings: seq<Warning>)
      modifies `data
      ensures ok == ((old(data) == [] || HeaderAccepted(old(data), accepts)) && reaches >= |old(Missing())|)
      ensures ok ==> data == old(data) + old(Missing())
      ensures !ok ==> data == (if old(data) == [] then header[..reaches] else old(data))
      ensures warnings == if ok && old(data) != [] && old(data)[|old(data)| - 1] != LF then [PARTIAL_TAIL] else []
    {
      warnings := [];
      if data == [] {
        var line := header + [LF];
        data := line[..Basics.Min(reaches, |line|)];
        return reaches >= |line|, [];
      }
      var end := FirstLf(data);
      if end == |data| || end + 1 > HEADER_LIMIT || !accepts(data[..end]) {
        return false, [];
      }
      if data[|data| - 1] != LF {
        if reaches == 0 {
          return false, [];
        }
        warnings := [PARTIAL_TAIL];
        data := data + [LF];
      }
      ok := true;
    }

    /** Whether the header line is in order when the file is not empty. */
    ghost predicate MayOpen(accepts: Bytes -> bool)
      reads this
    {
      data == [] || (Headed() && accepts(header))
    }

    lemma OpensExactly(accepts: Bytes -> bool)
      requires Valid()
      ensures MayOpen(accepts) <==> data == [] || HeaderAccepted(data, accepts)
      ensures MayOpen(accepts) ==> data + Missing() == Opened(header, encode, past)
      ensures past == [] && data != [] && MayOpen(accepts) ==> Missing() == []
      ensures past != [] ==> data != []
      ensures data == [] ==> MayOpen(accepts) && |Missing()| == |header| + 1
    {
      hide Split, FirstLf, Image, Opened, Encoded;
      HeaderOfImage(header, encode, classify, past, accepts);
      OpenedIs(header, encode, past);
      if past == [] {
        TornHeader(header, data, accepts);
      }
    }

    /** An open succeeds exactly when the last writer was dropped and not killed, the file is empty or its header
        line complete and accepted, and what has to be written gets to the file. */
    method Open(accepts: Bytes -> bool, reaches: nat) returns (ok: bool)
      requires Valid()
      modifies this
      ensures Valid()
      ensures ok <==> (old(writer).NeverOpened? || old(writer).Dropped?) && old(MayOpen(accepts))
                      && reaches >= |old(Missing())|
      ensures ok ==> healthy && past == old(past) + [Session([], [])] && data == Opened(header, encode, old(past))
                     && accepted == queue == []
      ensures ok ==> (startup == [PARTIAL_TAIL] <==> old(data) != [] && old(data)[|old(data)| - 1] != LF)
      ensures !ok ==> past == old(past) && healthy == old(healthy) && writer == old(writer) && queue == old(queue)
                      && data == if old(data) == [] && !old(locked) then header[..reaches] else old(data)
    {
      hide Split, FirstLf, Image, Opened, Encoded, HeaderAccepted, Faithful, Partials, MayOpen, Headed, Missing;
      if locked {
        return false;
      }
      OpensExactly(accepts);
      var warnings;
      locked := true;
      ok, warnings := ValidateOrInitialize(accepts, reaches);
      if ok {
        StartWriter(warnings);
      } else {
        locked := false;
      }
    }

    /** The writer starts a life of its own on the opened file. */
    method StartWriter(warnings: seq<Warning>)
      requires Faithful(header, encode, classify) && Partials(past) && data == Opened(header, encode, past) && locked
      modifies `startup, `healthy, `queue, `writer, `past, `accepted
      ensures Valid() && healthy && past == old(past) + [Session([], [])] && accepted == queue == []
      ensures startup == warnings
    {
      hide Image, Opened, Faithful, Partials;
      ImageOpen(header, encode, past);
      PartialsOfOneMore(past);
      startup, healthy, queue := warnings, true, [];
      past, accepted, writer := past + [Session([], [])], [], Running;
    }

    /** The process is killed inside an open: the lock file stays, with as much as got to the file of what the
        open had to write. A separated tail is a life without records. */
    method KillInOpen(accepts: Bytes -> bool, reaches: nat)
      requires Valid() && !locked
      modifies this
      ensures Valid() && writer == Killed
      ensures data == if old(MayOpen(accepts)) && reaches >= |old(Missing())| then old(data) + old(Missing())
                      else if old(data) == [] then header[..reaches] else old(data)
      ensures past == if old(past) != [] && data != old(data) then old(past) + [Session([], [])] else old(past)
    {
      hide Split, FirstLf, Image, Opened, Encoded, HeaderAccepted, Faithful, Partials, MayOpen, Headed;
      OpensExactly(accepts);
      ImageOpen(header, encode, past);
      var _, _ := ValidateOrInitialize(accepts, reaches);
      if past != [] && data != old(data) {
        PartialsOfOneMore(past);
        past, accepted := past + [Session([], [])], [];
      }
      locked, healthy, writer := true, false, Killed;
    }

    /** The bytes of `record` that get to the file end this life's records, or its tail. */
    ghost function AfterWriting(record: R, reaches: nat): (now: Session<R>)
      requires Valid() && writer.Running?
      reads this
    {
      var last := past[|past| - 1];
      if reaches > |encode(record)| then Session(last.written + [record], [])
      else Session(last.written, encode(record)[..reaches])
    }

    method Write(record: R, reaches: nat)
      requires Valid() && writer.Running?
      modifies `data, `past
      ensures var line := encode(record) + [LF]; data == old(data) + line[..Basics.Min(reaches, |line|)]
      ensures past == old(past)[..|old(past)| - 1] + [old(AfterWriting(record, reaches))]
      ensures Partials(past) && data == Image(header, encode, past)
    {
      hide Opened, Encoded;
      var line := encode(record) + [LF];
      ghost var n := |past| - 1;
      data := data + line[..Basics.Min(reaches, |line|)];
      if reaches >= |line| {
        ImageAppend(header, encode, past, record);
        past := past[n := Session(past[n].written + [record], [])];
      } else {
        var cut := encode(record)[..reaches];
        assert line[..reaches] == cut;
        past := past[n := Session(past[n].written, cut)];
        assert past[..n] == old(past)[..n];
      }
    }

    /** A record is accepted into the queue while there is room and no error; a full queue latches one. The writer
        runs on. */
    method Record(record: R) returns (ok: bool)
      requires Valid()
      modifies `healthy, `queue, `accepted
      ensures Valid()
      ensures ok == healthy == (old(healthy) && |old(queue)| < QUEUE_CAPACITY)
      ensures queue == if ok then old(queue) + [record] else old(queue)
      ensures accepted == if ok then old(accepted) + [record] else old(accepted)
    {
      hide Image, Faithful;
      if !healthy {
        return false;
      }
      ok := |queue| < QUEUE_CAPACITY;
      if ok {
        queue, accepted := queue + [record], accepted + [record];
      } else {
        healthy := false;
      }
    }

    /** The writer takes the next record and `reaches` of its bytes get to the file. Falling short latches the
        error and ends the writer, which drops its lock and its queue. */
    method Append(reaches: nat)
      requires Valid() && writer.Running? && queue != []
      modifies `data, `locked, `healthy, `queue, `past, `writer
      ensures Valid()
      ensures past == old(past)[..|old(past)| - 1] + [old(AfterWriting(queue[0], reaches))]
      ensures if reaches > |encode(old(queue)[0])|
              then queue == old(queue)[1..] && writer == Running && healthy == old(healthy)
              else writer == Dropped && !healthy
    {
      hide Image, Faithful;
      assert queue == [queue[0]] + queue[1..];
      Write(queue[0], reaches);
      if reaches > |encode(queue[0])| {
        queue := queue[1..];
      } else {
        locked, healthy, queue, writer := false, false, [], Dropped;
      }
    }

    /** This life once the writer has taken everything queued. */
    ghost function AfterDraining(reaches: nat -> nat): (now: Session<R>)
      requires Valid() && writer.Running?
      reads this
    {
      var n := WrittenWhole(encode, queue, reaches);
      if n == |queue| then Session(accepted, [])
      else Session(past[|past| - 1].written + queue[..n], encode(queue[n])[..reaches(n)])
    }

    /** The writer takes everything queued: whatever asks it for an answer waits behind that. */
    method Drain(reaches: nat -> nat)
      requires Valid()
      modifies `data, `locked, `healthy, `queue, `past, `writer
      ensures Valid() && queue == []
      ensures old(writer).Running? ==>
                && past == old(past)[..|old(past)| - 1] + [old(AfterDraining(reaches))]
                && (if WrittenWhole(encode, old(queue), reaches) == |old(queue)|
                    then writer == Running && healthy == old(healthy) else writer == Dropped && !healthy)
      ensures !old(writer).Running? ==>
                data == old(data) && past == old(past) && writer == old(writer) && healthy == old(healthy)
    {
      hide Image, Faithful, Partials, WrittenWhole;
      if !writer.Running? {
        return;
      }
      ghost var all, first, n := queue, past[|past| - 1].written, |past| - 1;
      var k: nat := 0;
      assert past == past[..n] + [past[n]] && first + all[..0] == first;
      while queue != []
        invariant Valid() && writer == Running && healthy == old(healthy)
        invariant k <= |all| && queue == all[k..] && forall j :: 0 <= j < k ==> reaches(j) > |encode(all[j])|
        invariant past == old(past)[..n] + [Session(first + all[..k], [])]
        decreases |queue|
      {
        assert queue[0] == all[k];
        Append(reaches(k));
        if !writer.Running? {
          assert k == WrittenWhole(encode, all, reaches);
          return;
        }
        assert first + all[..k] + [all[k]] == first + all[..k + 1];
        k := k + 1;
      }
      assert k == WrittenWhole(encode, all, reaches) && all[..k] == all;
    }

    /** The store is dropped: its writer, if it still runs, takes what is queued, ends and removes the lock file. */
    method Close(reaches: nat -> nat)
      requires Valid()
      modifies `data, `locked, `healthy, `queue, `past, `writer
      ensures Valid() && !healthy
      ensures writer == if old(writer).Running? then Dropped else old(writer)
      ensures past == if old(writer).Running? then old(past)[..|old(past)| - 1] + [old(AfterDraining(reaches))]
                      else old(past)
    {
      hide Image, Faithful;
      Drain(reaches);
      healthy := false;
      if writer.Running? {
        locked, writer := false, Dropped;
      }
    }

    /** The process is killed while `reaches` bytes of the next record, if any, have got to the file. Nothing is
        dropped: the lock file stays. What was queued is lost. */
    method Kill(reaches: nat)
      requires Valid() && writer.Running?
      modifies `data, `healthy, `queue, `past, `writer
      ensures Valid() && writer == Killed && !healthy
      ensures past == if old(queue) == [] then old(past)
                      else old(past)[..|old(past)| - 1] + [old(AfterWriting(queue[0], reaches))]
    {
      hide Image, Faithful;
      if queue != [] {
        Write(queue[0], reaches);
        assert queue == [queue[0]] + queue[1..];
      }
      healthy, queue, writer := false, [], Killed;
    }

    /** A page request, answered after what was queued before it; a failed read is latched like any other error,
        and the writer runs on. */
    method SnapshotPage(after: nat, watermark: nat, limit: nat, reaches: nat -> nat)
      returns (reading: Reading<R>, warnings: seq<Warning>)
      requires Valid()
      modifies `data, `locked, `healthy, `queue, `past, `writer
      ensures Valid()
      ensures reading == if old(healthy) && writer.Running? then Snapshot(classify, data, after, watermark, limit)
                         else None
      ensures healthy == (old(healthy) && reading.Some?)
      ensures reading.Some? ==> warnings == startup + reading.page.warnings
      ensures old(healthy) ==> past == old(past)[..|old(past)| - 1] + [old(AfterDraining(reaches))]
      ensures !old(healthy) ==> data == old(data) && past == old(past) && writer == old(writer) && queue == old(queue)
    {
      hide Image, Faithful;
      reading, warnings := None, [];
      if healthy {
        Drain(reaches);
        if writer.Running? {
          reading := ReadSnapshot(classify, data, after, watermark, limit);
          healthy := reading.Some?;
          if reading.Some? {
            warnings := startup + reading.page.warnings;
          }
        }
      }
    }

    /** Reading everything, page after page, as resuming a session does: whatever was accepted is among it. */
    method LoadAll(reaches: nat -> nat) returns (reading: Reading<R>)
      requires Valid()
      modifies `data, `locked, `healthy, `queue, `past, `writer
      ensures Valid()
      ensures reading.Some? <==> old(healthy) && writer.Running? && AllDecodable(classify, past)
      ensures reading.Some? ==>
                reading.page.records == Survivors(classify, past) && past[|past| - 1] == Session(accepted, [])
      ensures old(healthy) ==> past == old(past)[..|old(past)| - 1] + [old(AfterDraining(reaches))]
      ensures healthy == reading.Some?
    {
      hide Image, Opened, Faithful, Survivors, AllDecodable, SurveyFrom;
      if !healthy {
        return None;
      }
      Drain(reaches);
      if !writer.Running? {
        return None;
      }
      ReadBack(header, encode, classify, past);
      FaithfulBlank(header, encode, classify);
      var file := data;
      assert file[..|file|] == file;
      var warnings;
      reading, warnings := LoadPages(classify, (page: nat) => file, 0, Basics.None, PAGE_RECORDS, startup);
      healthy := reading.Some?;
    }
  }

  // ---- runs ----

  /** A write stops part-way, because of an error or because the process is killed: the next open succeeds
      exactly in the first case, and a killed writer's log is refused however often it is tried. */
  method ReopenAfterPartialWrite<R(!new)>(
      store: HistoryStore<R>, reaches: nat, killed: bool, accepts: Bytes -> bool, tries: nat)
    returns (reopened: bool)
    requires store.Valid() && store.writer.Running? && store.queue != [] && accepts(store.header)
    requires 0 < reaches <= |store.encode(store.queue[0])| && tries > 0
    modifies store
    ensures store.Valid()
    ensures reopened <==> !killed
    ensures reopened ==> store.healthy && store.startup == [PARTIAL_TAIL]
    ensures !reopened ==> store.writer == Killed
  {
    if killed {
      store.Kill(reaches);
    } else {
      store.Append(reaches);
      ImageEndsUnfinished(store.header, store.encode, store.past);
    }
    hide Image;
    reopened := false;
    var k := 0;
    while k < tries && !reopened
      invariant k <= tries && store.Valid()
      invariant killed ==> !reopened && store.writer == Killed
      invariant !killed && !reopened ==>
                  && k == 0 && store.writer == Dropped && store.past != []
                  && store.data != [] && store.data[|store.data| - 1] != LF
      invariant reopened ==> !killed && store.healthy && store.startup == [PARTIAL_TAIL]
    {
      reopened := store.Open(accepts, 1);
      k := k + 1;
    }
  }

  /** The first open of a log cannot write all of the header line: if any of it got to the file, the log is never
      opened again, whatever is tried. */
  method ReopenAfterTornHeader<R(!new)>(
      store: HistoryStore<R>, reaches: nat, accepts: Bytes -> bool, tries: nat)
    returns (reopened: bool)
    requires store.Valid() && store.data == [] && !store.locked
    requires reaches <= |store.header| && tries > 0
    modifies store
    ensures store.Valid()
    ensures reopened <==> reaches == 0
    ensures !reopened ==> store.past == [] && store.data == store.header[..reaches]
  {
    hide Image, Faithful;
    store.OpensExactly(accepts);
    reopened := store.Open(accepts, reaches);
    var k := 0;
    while k < tries && !reopened
      invariant k <= tries && store.Valid() && (reopened ==> reaches == 0)
      invariant !reopened ==> store.past == [] && store.data == store.header[..reaches] && !store.locked
      invariant reaches == 0 ==> k == 0 || reopened
    {
      reopened := store.Open(accepts, |store.header| + 1);
      k := k + 1;
    }
  }

  const ACUTE: Bytes := [195, 169]

  /** A record there is one of. */
  datatype Mark = Mark

  function Accented(line: Bytes): Kind<Mark> {
    if line == [] then Blank
    else if line == ACUTE then Event(Mark)
    else if line == ACUTE[..1] then Undecodable
    else Malformed("")
  }

  function EncodeMark(record: Mark): Bytes { ACUTE }

  lemma MarksAreFaithful()
    ensures Faithful([35], EncodeMark, Accented)
  {
    assert LF !in ACUTE && [35 as byte][0] != ACUTE[0] && [35 as byte][0] != ACUTE[..1][0];
    forall r: Mark ensures LF !in EncodeMark(r) && Accented(EncodeMark(r)) == Event(r) {
      assert r == Mark;
    }
  }

  /** One record is written whole, and of a second one the first byte. */
  method WriteOneAndAHalf() returns (store: HistoryStore<Mark>)
    ensures fresh(store) && store.Valid() && store.writer == Dropped
    ensures store.classify == Accented && store.past == [Session([Mark], ACUTE[..1])]
  {
    hide Image, Opened, Separated, Faithful, Accented, Partials, FirstLf, HeaderAccepted;
    MarksAreFaithful();
    store := new HistoryStore<Mark>([35], EncodeMark, Accented);
    var _ := store.Open(line => true, 2);
    assert store.past == [Session([], [])] && store.encode(Mark) == ACUTE && [] + [Mark] == [Mark];
    var _ := store.Record(Mark);
    store.Append(3);
    assert store.past == [Session([Mark], [])];
    var _ := store.Record(Mark);
    store.Append(1);
    assert store.past == [Session([Mark], ACUTE[..1])];
  }

  /** A tail cut inside a two-byte character hides even the complete record before it: the promise that a
      partial write never damages its neighbours fails on this run. */
  method CutCharacterHidesNeighbours() returns (store: HistoryStore<Mark>, reading: Reading<Mark>)
    ensures store.Valid() && store.past == [Session([Mark], ACUTE[..1]), Session([], [])]
    ensures Survivors(Accented, store.past) == [Mark] && reading == None
  {
    hide Image, Opened, Separated, Faithful, Accented, Survivors, AllDecodable, Partials, FirstLf, HeaderAccepted;
    store := WriteOneAndAHalf();
    var _ := store.Open(line => true, 1);
    assert store.past == [Session([Mark], ACUTE[..1]), Session([], [])];
    reading := store.LoadAll((k: nat) => 0);
    assert store.past == [Session([Mark], ACUTE[..1]), Session([], [])];
    TailIsUndecodable(store.past);
  }

  lemma TailIsUndecodable(past: seq<Session<Mark>>)
    requires past == [Session([Mark], ACUTE[..1]), Session([], [])]
    ensures Survivors(Accented, past) == [Mark] && !AllDecodable(Accented, past)
  {
    assert past[..1] == [past[0]] && past[..1][..0] == [] && past[0] in past;
    assert Survivors(Accented, past[..1]) == [Mark];
  }
}
