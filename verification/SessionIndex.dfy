/** Finding a saved session's latest name by scanning its file backwards in blocks. */
module SessionIndex {
  import opened Basics
  import opened Lines

  /** The cleaned title when a line is a `session_info` record, `None` for any other line.
      The empty text is no JSON document (section 2 of RFC 8259). */
  type Namer = Bytes -> Option<string>

  /** The name on the last naming line. */
  function LastName(named: Namer, lines: seq<Bytes>): Option<string> {
    if lines == [] then None
    else
      var later := LastName(named, lines[1..]);
      if later.Some? then later else named(lines[0])
  }

  /** The lines lying wholly inside the last `tail` bytes of the file: the first piece of that window
      may be the end of a longer line, and counts only when the window reaches offset 0. */
  function LinesInTail(file: Bytes, tail: nat): seq<Bytes> {
    if |file| <= tail then Split(file) else Split(file[|file| - tail..])[1..]
  }

  lemma {:induction false} LastNameConcat(named: Namer, a: seq<Bytes>, b: seq<Bytes>)
    ensures LastName(named, a + b) ==
            if LastName(named, b).Some? then LastName(named, b) else LastName(named, a)
  {
    if a == [] {
      assert a + b == b;
    } else {
      assert (a + b)[1..] == a[1..] + b;
      LastNameConcat(named, a[1..], b);
    }
  }

  lemma LastNameOfTwo(named: Namer, a: seq<Bytes>, b: seq<Bytes>)
    requires a != []
    ensures (a + b)[0] == a[0]
    ensures LastName(named, a + b) == if LastName(named, b).Some? then LastName(named, b) else LastName(named, a)
    ensures LastName(named, (a + b)[1..]) ==
            if LastName(named, b).Some? then LastName(named, b) else LastName(named, a[1..])
  {
    LastNameConcat(named, a, b);
    assert (a + b)[1..] == a[1..] + b;
    LastNameConcat(named, a[1..], b);
  }

  /** The scan of one block's lines from the last to the first. */
  method ScanBackwards(named: Namer, text: Bytes) returns (name: Option<string>)
    ensures name == LastName(named, Split(text))
  {
    var lines := Split(text);
    var i := |lines|;
    while i > 0
      invariant 0 <= i <= |lines|
      invariant LastName(named, lines[i..]) == None
    {
      i := i - 1;
      assert lines[i..][1..] == lines[i + 1..];
      if named(lines[i]).Some? {
        assert lines == lines[..i] + lines[i..];
        LastNameConcat(named, lines[..i], lines[i..]);
        return named(lines[i]);
      }
    }
    assert lines[0..] == lines;
    name := None;
  }

  /** Widening the window by a block only changes its first piece; the block plus the carried suffix
      is all that has to be split. */
  lemma Widen(named: Namer, block: Bytes, window: Bytes, suffix: Bytes)
    requires suffix == Split(window)[0] && LastName(named, Split(window)[1..]) == None
    ensures Split(block + window)[0] == Split(block + suffix)[0]
    ensures LastName(named, Split(block + window)) == LastName(named, Split(block + suffix))
    ensures LastName(named, Split(block + window)[1..]) == LastName(named, Split(block + suffix)[1..])
  {
    SplitPrepend(block, window);
    LastNameOfTwo(named, Split(block + suffix), Split(window)[1..]);
  }

  /** A name found in a later line stays the last one however far the window still reaches back. */
  lemma FoundLater(named: Namer, earlier: Bytes, window: Bytes)
    requires LastName(named, Split(window)[1..]).Some?
    ensures LastName(named, Split(earlier + window)[1..]) == LastName(named, Split(window)[1..])
    ensures LastName(named, Split(earlier + window)) == LastName(named, Split(window)[1..])
  {
    SplitPrepend(earlier, window);
    LastNameOfTwo(named, Split(earlier + Split(window)[0]), Split(window)[1..]);
  }

  /** Splitting from the first line feed on sees one extra, empty piece, which names nothing. */
  lemma AfterFirstLf(named: Namer, text: Bytes)
    requires named([]) == None
    ensures LastName(named, Split(text)[1..]) == LastName(named, Split(text[FirstLf(text)..]))
  {
    var n := FirstLf(text);
    var s := text[n..];
    if n == |text| {
      assert s == [] && Split(s) == [[]];
    } else {
      FirstLfIs(s, 0);
      assert s[1..] == text[n + 1..] && s[..0] == [];
      assert Split(s)[1..] == Split(text)[1..];
    }
  }

  /** The scan has read `file[position..]` and found no name in a line lying wholly inside it. */
  ghost predicate Scanned(named: Namer, file: Bytes, position: nat, suffix: Bytes)
    requires position <= |file|
  {
    && suffix == Split(file[position..])[0]
    && LastName(named, Split(file[position..])[1..]) == None
    && (position == 0 ==> LastName(named, Split(file[position..])) == None)
  }

  lemma FirstPiece(s: Bytes)
    ensures Split(s)[0] == s[..FirstLf(s)]
  {
  }

  /** One block further: either its lines hold the answer, or nothing is found and the scan goes on. */
  lemma BlockStep(named: Namer, file: Bytes, tailBytes: nat, position: nat, count: nat, suffix: Bytes)
    requires count <= position <= |file| && |file| - (position - count) <= tailBytes
    requires named([]) == None && Scanned(named, file, position, suffix)
    ensures var start := position - count;
            var text := file[start..position] + suffix;
            var name := LastName(named, Split(text[if start == 0 then 0 else FirstLf(text)..]));
            if name.Some? then LastName(named, LinesInTail(file, tailBytes)) == name
            else Scanned(named, file, start, text[..FirstLf(text)])
  {
    hide Split, FirstLf, LinesInTail;
    var start := position - count;
    var text := file[start..position] + suffix;
    assert file[start..] == file[start..position] + file[position..];
    Widen(named, file[start..position], file[position..], suffix);
    AfterFirstLf(named, text);
    assert text[0..] == text;
    FirstPiece(text);
    Settled(named, file, tailBytes, start);
  }

  lemma ScanStart(named: Namer, file: Bytes)
    requires named([]) == None
    ensures Scanned(named, file, |file|, [])
  {
    assert file[|file|..] == [] && Split([]) == [[]];
  }

  lemma ScanEnd(named: Namer, file: Bytes, tailBytes: nat, position: nat, suffix: Bytes)
    requires position <= |file| && |file| - position <= tailBytes && Scanned(named, file, position, suffix)
    requires position == 0 || |file| - position == tailBytes
    ensures LastName(named, LinesInTail(file, tailBytes)) == None
  {
    Settled(named, file, tailBytes, position);
  }

  // ---- what that is, by offsets ----

  /** A line begins at `o` and lies wholly inside the last `tail` bytes. The scan cannot tell that a line begins
      where the window does, unless that is offset 0. */
  predicate InTail(file: Bytes, tail: nat, o: nat) {
    o < |file| && (if |file| <= tail then Begins(file, 0, o) else o > |file| - tail && file[o - 1] == LF)
  }

  /** `name` is that of the last naming line from `at` on, if any names. */
  ghost predicate NamedFrom(named: Namer, file: Bytes, at: nat, name: Option<string>) {
    match name
    case None => forall o: nat | Begins(file, at, o) :: named(LineAt(file, o)) == None
    case Some(_) =>
      exists o: nat | Begins(file, at, o) ::
        named(LineAt(file, o)) == name
        && forall p: nat | o < p && Begins(file, at, p) :: named(LineAt(file, p)) == None
  }

  lemma {:induction false} LastNameIsNamed(named: Namer, file: Bytes, at: nat)
    requires at <= |file| && named([]) == None
    ensures NamedFrom(named, file, at, LastName(named, Split(file[at..])))
    decreases |file| - at
  {
    if at == |file| {
      assert file[at..] == [] && Split([]) == [[]];
      assert LastName(named, [[]][1..]) == None;
    } else {
      var end := LineEnd(file, at);
      SplitFrom(named, file, at);
      LastNameIsNamed(named, file, end);
      hide LastName, LineAt, LineEnd, Split;
      NamedOneLineBack(named, file, at, LastName(named, Split(file[end..])));
    }
  }

  lemma SplitFrom(named: Namer, file: Bytes, at: nat)
    requires at < |file| && named([]) == None
    ensures var later := LastName(named, Split(file[LineEnd(file, at)..]));
            && LastName(named, Split(file[at..])) == (if later.Some? then later else named(LineAt(file, at)))
            && LastName(named, Split(file[at..])[1..]) == later
  {
    var s := file[at..];
    var n := FirstLf(s);
    if n < |s| {
      assert file[LineEnd(file, at)..] == s[n + 1..];
      assert Split(s)[1..] == Split(s[n + 1..]);
    } else {
      assert s[..n] == s && Split(s)[1..] == [] && file[|file|..] == [] && Split([]) == [[]];
      assert LastName(named, [[]][1..]) == None;
    }
  }

  lemma NamedOneLineBack(named: Namer, file: Bytes, at: nat, later: Option<string>)
    requires at < |file| && NamedFrom(named, file, LineEnd(file, at), later)
    ensures NamedFrom(named, file, at, if later.Some? then later else named(LineAt(file, at)))
  {
    hide LineAt, LineEnd;
    var end := LineEnd(file, at);
    forall o: nat ensures Begins(file, at, o) <==> o == at || Begins(file, end, o) {
      BeginsNext(file, at, o);
    }
    if later.Some? {
      var o: nat :| Begins(file, end, o) && named(LineAt(file, o)) == later
                    && forall p: nat | o < p && Begins(file, end, p) :: named(LineAt(file, p)) == None;
      assert Begins(file, at, o);
    } else {
      assert Begins(file, at, at);
    }
  }

  /** The name found is that of the last naming line inside the window; none is found only if none names. */
  ghost predicate NamedLast(named: Namer, file: Bytes, tail: nat, name: Option<string>) {
    match name
    case None => forall o: nat | InTail(file, tail, o) :: named(LineAt(file, o)) == None
    case Some(_) =>
      exists o: nat | InTail(file, tail, o) ::
        named(LineAt(file, o)) == name
        && forall p: nat | o < p && InTail(file, tail, p) :: named(LineAt(file, p)) == None
  }

  /** What the scan finds is the name on the last naming line that lies wholly inside the window. */
  lemma TailIsNamedLast(named: Namer, file: Bytes, tail: nat)
    requires named([]) == None
    ensures NamedLast(named, file, tail, LastName(named, LinesInTail(file, tail)))
  {
    if |file| <= tail {
      assert file[0..] == file;
      LastNameIsNamed(named, file, 0);
      hide LastName, LinesInTail, LineAt;
      assert forall o: nat :: InTail(file, tail, o) == Begins(file, 0, o);
    } else if tail == 0 {
      assert file[|file|..] == [] && Split([]) == [[]];
    } else {
      var w := |file| - tail;
      SplitFrom(named, file, w);
      LastNameIsNamed(named, file, LineEnd(file, w));
      hide LastName, LineAt, LineEnd, Split;
      forall o: nat ensures InTail(file, tail, o) == Begins(file, LineEnd(file, w), o) {
        BeginsNext(file, w, o);
        BeginsNext(file, w, w);
      }
    }
  }

  /** For every file, every window size and every block size, the backward scan finds what one split
      of the window finds. */
  method LatestName(named: Namer, file: Bytes, tailBytes: nat, blockBytes: nat) returns (name: Option<string>)
    requires blockBytes > 0 && named([]) == None
    ensures name == LastName(named, LinesInTail(file, tailBytes))
  {
    hide Split, FirstLf, LastName, LinesInTail, Scanned;
    var position, budget := |file|, tailBytes;
    var suffix: Bytes := [];
    ScanStart(named, file);
    while position > 0 && budget > 0
      invariant 0 <= position <= |file| && 0 <= budget
      invariant |file| - position == tailBytes - budget
      invariant Scanned(named, file, position, suffix)
      decreases position
    {
      var count := Min(position, Min(blockBytes, budget));
      BlockStep(named, file, tailBytes, position, count, suffix);
      position, budget := position - count, budget - count;
      var text := file[position..position + count] + suffix;
      var firstEnd := FirstLf(text);
      var completeStart := if position == 0 then 0 else firstEnd;
      name := ScanBackwards(named, text[completeStart..]);
      if name.Some? {
        return;
      }
      suffix := text[..firstEnd];
    }
    ScanEnd(named, file, tailBytes, position, suffix);
    name := None;
  }

  /** What the window's part from `position` on already decides about the whole window. */
  lemma Settled(named: Namer, file: Bytes, tailBytes: nat, position: nat)
    requires position <= |file| && |file| - position <= tailBytes
    ensures position == 0 ==> LinesInTail(file, tailBytes) == Split(file[position..])
    ensures position > 0 && |file| - position == tailBytes ==>
              LinesInTail(file, tailBytes) == Split(file[position..])[1..]
    ensures position > 0 && LastName(named, Split(file[position..])[1..]).Some? ==>
              LastName(named, LinesInTail(file, tailBytes)) == LastName(named, Split(file[position..])[1..])
  {
    assert file[0..] == file;
    if LastName(named, Split(file[position..])[1..]).Some? {
      var start := if |file| <= tailBytes then 0 else |file| - tailBytes;
      assert file[start..] == file[start..position] + file[position..];
      FoundLater(named, file[start..position], file[position..]);
    }
  }
}
