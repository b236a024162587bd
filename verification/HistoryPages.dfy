/** The append-only execution-history log: how it is read in pages under a fixed watermark. */
module HistoryPages {
  import Basics
  import opened Lines

  /** What UTF-8 decoding, trimming and the JSON parser say about a line without its line feed. */
  datatype Kind<R> =
    | Blank
    | Event(record: R)
    | Header
    | Malformed(error: string)
    | Undecodable

  type Classifier<!R> = Bytes -> Kind<R>

  datatype Warning =
    | Startup(text: string)
    | UnexpectedHeader(at: nat)
    | MalformedRecord(at: nat, error: string)

  /** Everything a stretch of the file holds: `readable` unless some line is not UTF-8. */
  datatype Survey<R> = Survey(records: seq<R>, warnings: seq<Warning>, readable: bool) {
    function Then(later: Survey<R>): Survey<R> {
      Survey(records + later.records, warnings + later.warnings, readable && later.readable)
    }
  }

  function Nothing<R>(): Survey<R> { Survey([], [], true) }

  /** One line, whose first byte is at offset `at`. */
  function SurveyLine<R>(classify: Classifier<R>, line: Bytes, at: nat): Survey<R> {
    match classify(line)
    case Blank => Nothing()
    case Event(record) => Survey([record], [], true)
    case Header => Survey([], [UnexpectedHeader(at)], true)
    case Malformed(error) => Survey([], [MalformedRecord(at, error)], true)
    case Undecodable => Survey([], [], false)
  }

  /** The reference reading: one pass over lines already split, the first one at offset `at`. */
  function SurveyLines<R>(classify: Classifier<R>, lines: seq<Bytes>, at: nat): Survey<R> {
    if lines == [] then Nothing()
    else SurveyLine(classify, lines[0], at).Then(SurveyLines(classify, lines[1..], at + |lines[0]| + 1))
  }

  function SurveyFrom<R>(classify: Classifier<R>, file: Bytes, at: nat): Survey<R>
    requires at <= |file|
  {
    SurveyLines(classify, Split(file[at..]), at)
  }

  datatype Page<R> = Page(records: seq<R>, warnings: seq<Warning>, next: nat, more: bool)

  /** `None` is the I/O error that a line which is not UTF-8 causes. */
  datatype Reading<R> = None | Some(page: Page<R>) {
    function After(earlier: Survey<R>): Reading<R> {
      match this
      case None => None
      case Some(p) => Some(p.(records := earlier.records + p.records, warnings := earlier.warnings + p.warnings))
    }
  }

  /** One page: up to `limit` records from offset `at`, stopping before the first that does not fit. */
  function ReadPage<R>(classify: Classifier<R>, file: Bytes, at: nat, limit: nat): Reading<R>
    requires at <= |file|
    decreases |file| - at
  {
    if at == |file| then Some(Page([], [], at, false)) else
    var kind := classify(LineAt(file, at));
    if kind.Undecodable? then None
    else if kind.Event? && limit == 0 then Some(Page([], [], at, true))
    else ReadPage(classify, file, LineEnd(file, at), if kind.Event? then limit - 1 else limit)
         .After(SurveyLine(classify, LineAt(file, at), at))
  }

  function Visible(file: Bytes, watermark: nat): Bytes {
    file[..Basics.Min(watermark, |file|)]
  }

  /** The first record line a page can return: a page from offset 0 steps over the header. */
  function Body(visible: Bytes, start: nat): (body: nat)
    requires start <= |visible|
    ensures start <= body <= |visible|
  {
    if start == 0 && visible != [] then LineEnd(visible, 0) else start
  }

  predicate HeaderReadable<R>(classify: Classifier<R>, visible: Bytes, start: nat) {
    start == 0 ==> visible == [] || !classify(LineAt(visible, 0)).Undecodable?
  }

  function PageFrom<R>(classify: Classifier<R>, visible: Bytes, start: nat, limit: nat): Reading<R>
    requires start <= |visible|
  {
    if HeaderReadable(classify, visible, start)
    then ReadPage(classify, visible, Body(visible, start), limit)
    else None
  }

  function Snapshot<R>(classify: Classifier<R>, file: Bytes, after: nat, watermark: nat, limit: nat): Reading<R> {
    var visible := Visible(file, watermark);
    PageFrom(classify, visible, Basics.Min(after, |visible|), limit)
  }

  lemma SurveyEnd<R>(classify: Classifier<R>, file: Bytes)
    requires classify([]) == Blank
    ensures SurveyFrom(classify, file, |file|) == Nothing()
  {
    assert file[|file|..] == [] && Split([]) == [[]];
    assert SurveyLines(classify, [[]][1..], |file| + 1) == Nothing<R>();
  }

  lemma SurveyStep<R>(classify: Classifier<R>, file: Bytes, at: nat)
    requires at < |file|
    requires classify([]) == Blank
    ensures SurveyFrom(classify, file, at) ==
            SurveyLine(classify, LineAt(file, at), at).Then(SurveyFrom(classify, file, LineEnd(file, at)))
  {
    var s := file[at..];
    var n := FirstLf(s);
    if n < |s| {
      assert file[LineEnd(file, at)..] == s[n + 1..];
      assert Split(s)[1..] == Split(s[n + 1..]);
    } else {
      assert s[..n] == s && Split(s)[1..] == [];
      assert SurveyLines(classify, Split(s)[1..], at + |s| + 1) == Nothing<R>();
      SurveyEnd(classify, file);
    }
  }

  lemma ThenAssociates<R>(a: Survey<R>, b: Survey<R>, c: Survey<R>)
    ensures a.Then(b).Then(c) == a.Then(b.Then(c))
  {
  }

  /** A page takes a piece off the front of what the file holds, and what it leaves starts at `next`.
      A page fails exactly when it runs into a line that is not UTF-8. */
  lemma {:induction false} PageIsPrefix<R>(classify: Classifier<R>, file: Bytes, at: nat, limit: nat)
    requires at <= |file| && classify([]) == Blank
    ensures var all := SurveyFrom(classify, file, at);
            match ReadPage(classify, file, at, limit)
            case None => !all.readable
            case Some(p) =>
              && at <= p.next <= |file| && |p.records| <= limit
              && all == Survey(p.records, p.warnings, true).Then(SurveyFrom(classify, file, p.next))
              && (p.more ==> |p.records| == limit && p.next < |file|)
              && (p.more && limit > 0 ==> at < p.next)
              && (!p.more ==> p.next == |file| && all == Survey(p.records, p.warnings, true))
    decreases |file| - at
  {
    SurveyEnd(classify, file);
    if at < |file| {
      SurveyStep(classify, file, at);
      var line := SurveyLine(classify, LineAt(file, at), at);
      var kind := classify(LineAt(file, at));
      if !kind.Undecodable? && !(kind.Event? && limit == 0) {
        var end := LineEnd(file, at);
        var left := if kind.Event? then limit - 1 else limit;
        PageIsPrefix(classify, file, end, left);
        match ReadPage(classify, file, end, left)
        case None =>
        case Some(p) =>
          ThenAssociates(line, Survey(p.records, p.warnings, true), SurveyFrom(classify, file, p.next));
      }
    }
  }

  /** A page request from an offset, the step over the header included, takes such a piece. */
  lemma RequestIsPrefix<R>(classify: Classifier<R>, visible: Bytes, at: nat, limit: nat)
    requires at <= |visible| && classify([]) == Blank && limit > 0
    ensures var body := Body(visible, at);
            var all := SurveyFrom(classify, visible, body);
            match PageFrom(classify, visible, at, limit)
            case None => !HeaderReadable(classify, visible, at) || !all.readable
            case Some(p) =>
              && HeaderReadable(classify, visible, at)
              && body <= p.next <= |visible| && Body(visible, p.next) == p.next
              && all == Survey(p.records, p.warnings, true).Then(SurveyFrom(classify, visible, p.next))
              && (p.more ==> at < p.next < |visible| && |p.records| == limit)
              && (!p.more ==> p.next == |visible| && all == Survey(p.records, p.warnings, true))
  {
    PageIsPrefix(classify, visible, Body(visible, at), limit);
  }

  /** One page request and what is appended to the file before the next one. */
  datatype Request = Request(limit: nat, appended: Bytes)

  datatype Collected<R> = Collected(survey: Survey<R>, next: nat, more: bool)

  /** A reader that follows `next` at a fixed watermark while the file keeps growing. */
  function Follow<R>(
      classify: Classifier<R>, file: Bytes, watermark: nat, at: nat, requests: seq<Request>): (got: Collected<R>)
    requires at <= watermark <= |file|
    decreases |requests|
  {
    if requests == [] then Collected(Nothing(), at, true) else
    match Snapshot(classify, file, at, watermark, requests[0].limit)
    case None => Collected(Survey([], [], false), at, false)
    case Some(p) =>
      var mine := Survey(p.records, p.warnings, true);
      if !p.more || p.next > watermark then Collected(mine, p.next, p.more)
      else
        var rest := Follow(classify, file + requests[0].appended, watermark, p.next, requests[1..]);
        rest.(survey := mine.Then(rest.survey))
  }

  /** Whatever the page sizes and whatever is appended in between, the pages together are exactly what the
      first `watermark` bytes hold after the header, each record and each warning once and in order; and enough
      requests always reach the end. */
  lemma {:induction false} PagesAreTheWhole<R>(
      classify: Classifier<R>, file: Bytes, watermark: nat, at: nat, requests: seq<Request>)
    requires at <= watermark <= |file| && classify([]) == Blank
    requires forall r <- requests :: r.limit > 0
    ensures var got := Follow(classify, file, watermark, at, requests);
            var visible := file[..watermark];
            var all := SurveyFrom(classify, visible, Body(visible, at));
            var readable := HeaderReadable(classify, visible, at) && all.readable;
            && at <= got.next <= watermark
            && (got.survey.readable ==>
                  all == got.survey.Then(SurveyFrom(classify, visible, Body(visible, got.next))))
            && (!got.survey.readable ==> !readable)
            && (!got.more ==> got.survey.readable == readable && (readable ==> got.survey == all))
            && (|requests| > watermark - at ==> !got.more)
    decreases |requests|
  {
    var visible := file[..watermark];
    assert Visible(file, watermark) == visible;
    if requests == [] {
      var all := SurveyFrom(classify, visible, Body(visible, at));
      assert Nothing().Then(all) == all;
    } else {
      var limit := requests[0].limit;
      RequestIsPrefix(classify, visible, at, limit);
      hide PageFrom;
      match PageFrom(classify, visible, at, limit)
      case None =>
      case Some(p) =>
        var mine := Survey(p.records, p.warnings, true);
        if p.more {
          var grown := file + requests[0].appended;
          assert grown[..watermark] == visible;
          PagesAreTheWhole(classify, grown, watermark, p.next, requests[1..]);
          var rest := Follow(classify, grown, watermark, p.next, requests[1..]);
          ThenAssociates(mine, rest.survey, SurveyFrom(classify, visible, Body(visible, rest.next)));
        } else {
          SurveyEnd(classify, visible);
          assert mine.Then(Nothing()) == mine;
        }
    }
  }

  lemma {:induction false} WarningsLieAhead<R>(classify: Classifier<R>, lines: seq<Bytes>, at: nat)
    ensures forall w <- SurveyLines(classify, lines, at).warnings :: !w.Startup? && at <= w.at
    ensures forall i, j | 0 <= i < j < |SurveyLines(classify, lines, at).warnings| ::
              SurveyLines(classify, lines, at).warnings[i].at < SurveyLines(classify, lines, at).warnings[j].at
  {
    if lines != [] {
      WarningsLieAhead(classify, lines[1..], at + |lines[0]| + 1);
    }
  }

  /** `page` is what has been read so far, `done`, and then a page from offset `at`. */
  ghost predicate Reached<R>(
      page: Reading<R>, classify: Classifier<R>, file: Bytes, at: nat, limit: nat, done: Survey<R>)
    requires at <= |file|
  {
    page == ReadPage(classify, file, at, limit).After(done)
  }

  lemma PageStep<R>(page: Reading<R>, classify: Classifier<R>, file: Bytes, at: nat, limit: nat, done: Survey<R>)
    requires at < |file| && Reached(page, classify, file, at, limit, done)
    ensures var kind := classify(LineAt(file, at));
            if kind.Undecodable? then page == None
            else if kind.Event? && limit == 0 then page == Some(Page(done.records, done.warnings, at, true))
            else Reached(page, classify, file, LineEnd(file, at), if kind.Event? then limit - 1 else limit,
                         done.Then(SurveyLine(classify, LineAt(file, at), at)))
  {
    if classify(LineAt(file, at)).Undecodable? || (classify(LineAt(file, at)).Event? && limit == 0) { return; }
    var left := if classify(LineAt(file, at)).Event? then limit - 1 else limit;
    var line := SurveyLine(classify, LineAt(file, at), at);
    match ReadPage(classify, file, LineEnd(file, at), left)
    case None =>
    case Some(p) =>
      assert done.records + (line.records + p.records) == done.records + line.records + p.records;
      assert done.warnings + (line.warnings + p.warnings) == done.warnings + line.warnings + p.warnings;
  }

  lemma PageEnd<R>(page: Reading<R>, classify: Classifier<R>, file: Bytes, limit: nat, done: Survey<R>)
    requires Reached(page, classify, file, |file|, limit, done)
    ensures page == Some(Page(done.records, done.warnings, |file|, false))
  {
  }

  method ReadSnapshot<R>(classify: Classifier<R>, file: Bytes, after: nat, watermark: nat, limit: nat)
    returns (reading: Reading<R>)
    ensures reading == Snapshot(classify, file, after, watermark, limit)
  {
    var visible := Visible(file, watermark);
    reading := ReadLines(classify, visible, Basics.Min(after, |visible|), limit);
  }

  /** The page loop over the visible bytes, line by line. */
  method ReadLines<R>(classify: Classifier<R>, visible: Bytes, start: nat, limit: nat) returns (reading: Reading<R>)
    requires start <= |visible|
    ensures reading == PageFrom(classify, visible, start, limit)
  {
    hide ReadPage, SurveyLine, LineAt, LineEnd;
    var records: seq<R>, warnings: seq<Warning> := [], [];
    var offset, lineNumber := start, 0;
    ghost var body := Body(visible, start);
    ghost var page := ReadPage(classify, visible, body, limit);
    while offset < |visible|
      invariant start <= offset <= |visible| && |records| <= limit
      invariant lineNumber == 0 ==> offset == start && records == [] && warnings == []
      invariant lineNumber > 0 ==> HeaderReadable(classify, visible, start) && body <= offset
      invariant body <= offset ==>
                  Reached(page, classify, visible, offset, limit - |records|, Survey(records, warnings, true))
      decreases |visible| - offset
    {
      var lineStart, kind := offset, classify(LineAt(visible, offset));
      if body <= offset {
        PageStep(page, classify, visible, offset, limit - |records|, Survey(records, warnings, true));
      }
      if kind.Undecodable? {
        return None;
      }
      lineNumber := lineNumber + 1;
      offset := LineEnd(visible, offset);
      if start == 0 && lineNumber == 1 {
        continue;
      }
      if kind.Event? && |records| >= limit {
        return Some(Page(records, warnings, lineStart, true));
      }
      records, warnings := Take(classify, LineAt(visible, lineStart), lineStart, records, warnings);
    }
    reading := Some(Page(records, warnings, offset, false));
    if body <= offset {
      PageEnd(page, classify, visible, limit - |records|, Survey(records, warnings, true));
    }
  }

  method Take<R>(classify: Classifier<R>, line: Bytes, at: nat, records: seq<R>, warnings: seq<Warning>)
    returns (records': seq<R>, warnings': seq<Warning>)
    requires !classify(line).Undecodable?
    ensures Survey(records', warnings', true) == Survey(records, warnings, true).Then(SurveyLine(classify, line, at))
    ensures records' == records + (match classify(line) case Event(record) => [record] case _ => [])
    ensures match classify(line)
            case Header => warnings' == warnings + [UnexpectedHeader(at)]
            case Malformed(error) => warnings' == warnings + [MalformedRecord(at, error)]
            case _ => warnings' == warnings
  {
    records', warnings' := records, warnings;
    match classify(line)
    case Blank =>
    case Event(record) => records' := records + [record];
    case Header => warnings' := warnings + [UnexpectedHeader(at)];
    case Malformed(error) => warnings' := warnings + [MalformedRecord(at, error)];
  }

  // ---- what a stretch of the file holds, by the lines in it ----

  /** The line that begins at `o` is of this kind. */
  ghost predicate HasKind<R>(classify: Classifier<R>, file: Bytes, from: nat, o: nat, kind: Kind<R>) {
    Begins(file, from, o) && classify(LineAt(file, o)) == kind
  }

  /** What a line is warned about for; the line at offset 0 is the header. */
  ghost predicate Deserved<R>(classify: Classifier<R>, file: Bytes, from: nat, w: Warning) {
    match w
    case Startup(_) => false
    case UnexpectedHeader(o) => o > 0 && HasKind(classify, file, from, o, Header)
    case MalformedRecord(o, error) => o > 0 && HasKind(classify, file, from, o, Malformed(error))
  }

  ghost predicate Legible<R>(classify: Classifier<R>, file: Bytes, from: nat) {
    forall o: nat | Begins(file, from, o) :: !classify(LineAt(file, o)).Undecodable?
  }

  function Events<R>(classify: Classifier<R>, lines: seq<Bytes>): seq<R> {
    if lines == [] then []
    else (match classify(lines[0]) case Event(record) => [record] case _ => []) + Events(classify, lines[1..])
  }

  /** The lines read from an offset, the header excepted. */
  function RecordLines(file: Bytes, from: nat): seq<Bytes>
    requires from <= |file|
  {
    if from == 0 then Split(file)[1..] else Split(file[from..])
  }

  lemma {:induction false} RecordsAreEvents<R>(classify: Classifier<R>, lines: seq<Bytes>, at: nat)
    ensures SurveyLines(classify, lines, at).records == Events(classify, lines)
  {
    if lines != [] {
      RecordsAreEvents(classify, lines[1..], at + |lines[0]| + 1);
    }
  }

  lemma LegibleNext<R>(classify: Classifier<R>, file: Bytes, at: nat)
    requires at < |file|
    ensures Legible(classify, file, at) <==>
            !classify(LineAt(file, at)).Undecodable? && Legible(classify, file, LineEnd(file, at))
  {
    hide LineAt, LineEnd;
    BeginsNext(file, at, at);
    forall o: nat ensures Begins(file, at, o) <==> o == at || Begins(file, LineEnd(file, at), o) {
      BeginsNext(file, at, o);
    }
  }

  /** A survey that does not start at the header warns exactly as the lines deserve. */
  lemma {:induction false} WarningsAreDeserved<R>(classify: Classifier<R>, file: Bytes, at: nat, w: Warning)
    requires 0 < at <= |file| && classify([]) == Blank
    ensures w in SurveyFrom(classify, file, at).warnings <==> Deserved(classify, file, at, w)
    decreases |file| - at
  {
    SurveyEnd(classify, file);
    if at < |file| {
      SurveyStep(classify, file, at);
      WarningsAreDeserved(classify, file, LineEnd(file, at), w);
      hide SurveyFrom, LineAt, LineEnd;
      if !w.Startup? {
        BeginsNext(file, at, w.at);
      }
    }
  }

  lemma {:induction false} ReadableIsLegible<R>(classify: Classifier<R>, file: Bytes, at: nat)
    requires at <= |file| && classify([]) == Blank
    ensures SurveyFrom(classify, file, at).readable <==> Legible(classify, file, at)
    decreases |file| - at
  {
    SurveyEnd(classify, file);
    if at < |file| {
      SurveyStep(classify, file, at);
      ReadableIsLegible(classify, file, LineEnd(file, at));
      LegibleNext(classify, file, at);
      hide SurveyFrom, LineAt, LineEnd, Legible;
    }
  }

  /** What the first page's bytes hold from an offset, said of their lines. */
  ghost predicate Holds<R>(
      classify: Classifier<R>, visible: Bytes, start: nat, records: seq<R>, warnings: seq<Warning>)
    requires start <= |visible|
  {
    && records == Events(classify, RecordLines(visible, start))
    && forall w :: w in warnings <==> Deserved(classify, visible, start, w)
  }

  /** The record lines that follow the header are those of the body. */
  lemma AfterHeader<R>(classify: Classifier<R>, visible: Bytes)
    requires visible != [] && classify([]) == Blank
    ensures Events(classify, Split(visible[Body(visible, 0)..])) == Events(classify, RecordLines(visible, 0))
  {
    var n := FirstLf(visible);
    assert visible[0..] == visible;
    SplitOnce(visible);
    NoEvents(classify);
    hide Split, FirstLf, Events;
    if n < |visible| {
      assert Split(visible)[1..] == Split(visible[n + 1..]);
    } else {
      assert Split(visible)[1..] == [] && visible[n..] == [];
    }
  }

  lemma NoEvents<R>(classify: Classifier<R>)
    requires classify([]) == Blank
    ensures Events(classify, Split([])) == Events(classify, []) == []
  {
    assert Split([]) == [[]] && Events(classify, [[]][1..]) == [];
  }

  lemma DeservedAfterHeader<R>(classify: Classifier<R>, visible: Bytes, start: nat, w: Warning)
    requires start <= |visible| && classify([]) == Blank
    ensures w in SurveyFrom(classify, visible, Body(visible, start)).warnings <==>
            Deserved(classify, visible, start, w)
  {
    var body := Body(visible, start);
    if visible == [] {
      SurveyEnd(classify, visible);
    } else {
      WarningsAreDeserved(classify, visible, body, w);
      hide SurveyFrom, LineAt, LineEnd;
      if start == 0 && !w.Startup? {
        BeginsNext(visible, 0, w.at);
      }
    }
  }

  lemma BodyHolds<R>(classify: Classifier<R>, visible: Bytes, start: nat)
    requires start <= |visible| && classify([]) == Blank
    ensures var all := SurveyFrom(classify, visible, Body(visible, start));
            && (HeaderReadable(classify, visible, start) && all.readable <==> Legible(classify, visible, start))
            && Holds(classify, visible, start, all.records, all.warnings)
  {
    var body := Body(visible, start);
    ReadableIsLegible(classify, visible, body);
    RecordsAreEvents(classify, Split(visible[body..]), body);
    if start == 0 && visible != [] {
      LegibleNext(classify, visible, 0);
      AfterHeader(classify, visible);
    }
    hide Split, SurveyFrom, LineAt, LineEnd, Events;
    assert visible == [] ==> body == 0;
    forall w
      ensures w in SurveyFrom(classify, visible, body).warnings <==> Deserved(classify, visible, start, w)
    {
      DeservedAfterHeader(classify, visible, start, w);
    }
  }

  // ---- a full-session query ----

  ghost predicate StrictOrder(before: (Warning, Warning) -> bool) {
    && (forall a, b :: before(a, b) ==> !before(b, a))
    && (forall a, b, c :: before(a, b) && before(b, c) ==> before(a, c))
    && (forall a, b :: a == b || before(a, b) || before(b, a))
  }

  ghost predicate Ascending(before: (Warning, Warning) -> bool, warnings: seq<Warning>) {
    forall i, j | 0 <= i < j < |warnings| :: before(warnings[i], warnings[j])
  }

  function Inserted(before: (Warning, Warning) -> bool, w: Warning, sorted: seq<Warning>): seq<Warning> {
    if sorted == [] then [w]
    else if sorted[0] == w then sorted
    else if before(w, sorted[0]) then [w] + sorted
    else [sorted[0]] + Inserted(before, w, sorted[1..])
  }

  /** Sorted, and each of the given warnings once. */
  function SortedDistinct(before: (Warning, Warning) -> bool, warnings: seq<Warning>): seq<Warning> {
    if warnings == [] then [] else Inserted(before, warnings[0], SortedDistinct(before, warnings[1..]))
  }

  lemma PrependKeeps(before: (Warning, Warning) -> bool, first: Warning, rest: seq<Warning>)
    requires Ascending(before, rest) && forall x <- rest :: before(first, x)
    ensures Ascending(before, [first] + rest)
  {
  }

  /** What comes before the first of an ascending list comes before all of it. */
  lemma BelowAll(before: (Warning, Warning) -> bool, w: Warning, sorted: seq<Warning>)
    requires StrictOrder(before) && Ascending(before, sorted) && sorted != [] && before(w, sorted[0])
    ensures forall x <- sorted :: before(w, x)
  {
    forall k | 0 <= k < |sorted| ensures before(w, sorted[k]) {
      if k > 0 {
        assert before(sorted[0], sorted[k]);
      }
    }
  }

  lemma HeadBelowTail(before: (Warning, Warning) -> bool, sorted: seq<Warning>)
    requires Ascending(before, sorted) && sorted != []
    ensures Ascending(before, sorted[1..]) && forall x <- sorted[1..] :: before(sorted[0], x)
  {
    assert forall k | 0 <= k < |sorted| - 1 :: sorted[1..][k] == sorted[k + 1];
  }

  lemma ComesAfter(before: (Warning, Warning) -> bool, a: Warning, b: Warning)
    requires StrictOrder(before) && a != b && !before(a, b)
    ensures before(b, a)
  {
  }

  lemma {:induction false} InsertedKeeps(before: (Warning, Warning) -> bool, w: Warning, sorted: seq<Warning>)
    requires StrictOrder(before) && Ascending(before, sorted)
    ensures var r := Inserted(before, w, sorted);
            Ascending(before, r) && forall x :: x in r <==> x == w || x in sorted
  {
    hide StrictOrder, Ascending;
    if sorted == [] {
      NothingAscends(before);
      PrependKeeps(before, w, []);
      assert [w] + [] == [w];
    } else if sorted[0] == w {
    } else if before(w, sorted[0]) {
      BelowAll(before, w, sorted);
      PrependKeeps(before, w, sorted);
    } else {
      HeadBelowTail(before, sorted);
      ComesAfter(before, w, sorted[0]);
      InsertedKeeps(before, w, sorted[1..]);
      PrependKeeps(before, sorted[0], Inserted(before, w, sorted[1..]));
      assert sorted == [sorted[0]] + sorted[1..];
    }
  }

  lemma NothingAscends(before: (Warning, Warning) -> bool)
    ensures Ascending(before, [])
  {
  }

  lemma {:induction false} SortedDistinctIs(before: (Warning, Warning) -> bool, warnings: seq<Warning>)
    requires StrictOrder(before)
    ensures var r := SortedDistinct(before, warnings);
            Ascending(before, r) && forall x :: x in r <==> x in warnings
  {
    if warnings != [] {
      SortedDistinctIs(before, warnings[1..]);
      InsertedKeeps(before, warnings[0], SortedDistinct(before, warnings[1..]));
      assert warnings == [warnings[0]] + warnings[1..];
    }
  }

  /** The visible bytes at the moment of the first page; later pages see the same ones. */
  function Watermark(file: Bytes, requested: Basics.Option<nat>): (watermark: nat)
    ensures watermark <= |file|
  {
    if requested.Some? then Basics.Min(requested.value, |file|) else |file|
  }

  /** `page` is what the pages so far have read of `all`, of which the rest follows from `page.next`. */
  ghost predicate Gathered<R>(classify: Classifier<R>, visible: Bytes, all: Survey<R>, page: Page<R>) {
    && page.next <= |visible| && Body(visible, page.next) == page.next
    && all == Survey(page.records, page.warnings, true).Then(SurveyFrom(classify, visible, page.next))
    && (page.more ==> page.next < |visible|)
    && (!page.more ==> page.next == |visible| && all == Survey(page.records, page.warnings, true))
  }

  function Extended<R>(page: Page<R>, next: Page<R>): Page<R> {
    Page(page.records + next.records, page.warnings + next.warnings, next.next, next.more)
  }

  lemma GatherMore<R>(classify: Classifier<R>, visible: Bytes, all: Survey<R>, page: Page<R>, limit: nat)
    requires classify([]) == Blank && limit > 0 && Gathered(classify, visible, all, page) && page.more
    ensures match PageFrom(classify, visible, page.next, limit)
            case None => !all.readable
            case Some(next) => Gathered(classify, visible, all, Extended(page, next)) && page.next < next.next
  {
    RequestIsPrefix(classify, visible, page.next, limit);
    hide PageFrom, SurveyFrom;
    match PageFrom(classify, visible, page.next, limit)
    case None =>
    case Some(next) =>
      ThenAssociates(Survey(page.records, page.warnings, true), Survey(next.records, next.warnings, true),
                     SurveyFrom(classify, visible, next.next));
  }

  lemma GatherFirst<R>(classify: Classifier<R>, visible: Bytes, start: nat, limit: nat)
    requires classify([]) == Blank && limit > 0 && start <= |visible|
    ensures var all := SurveyFrom(classify, visible, Body(visible, start));
            match PageFrom(classify, visible, start, limit)
            case None => !HeaderReadable(classify, visible, start) || !all.readable
            case Some(page) => HeaderReadable(classify, visible, start) && Gathered(classify, visible, all, page)
  {
    RequestIsPrefix(classify, visible, start, limit);
    hide PageFrom, SurveyFrom;
  }

  /** Pages at one watermark until the last one, while the file grows: page `k` finds `files(k)`. Every page
      repeats the warnings of the last open. */
  method LoadPages<R>(
      classify: Classifier<R>, files: nat -> Bytes, after: nat, requested: Basics.Option<nat>, limit: nat,
      startup: seq<Warning>)
    returns (reading: Reading<R>, warnings: seq<Warning>)
    requires limit > 0 && classify([]) == Blank
    requires forall k: nat :: files(0) <= files(k)
    ensures var visible := files(0)[..Watermark(files(0), requested)];
            var start := Basics.Min(after, |visible|);
            var all := SurveyFrom(classify, visible, Body(visible, start));
            && reading == (if HeaderReadable(classify, visible, start) && all.readable
                           then Some(Page(all.records, all.warnings, |visible|, false)) else None)
            && (reading.Some? ==> forall w :: w in warnings <==> w in startup || w in all.warnings)
  {
    var watermark := Watermark(files(0), requested);
    ghost var visible := files(0)[..watermark];
    ghost var start := Basics.Min(after, |visible|);
    ghost var all := SurveyFrom(classify, visible, Body(visible, start));
    warnings := startup;
    reading := ReadSnapshot(classify, files(0), after, watermark, limit);
    GatherFirst(classify, visible, start, limit);
    hide PageFrom, SurveyFrom, Body;
    if reading == None {
      return;
    }
    var page, pages := reading.page, 1;
    warnings := startup + page.warnings;
    while page.more
      invariant HeaderReadable(classify, visible, start) && Gathered(classify, visible, all, page)
      invariant forall w :: w in warnings <==> w in startup || w in page.warnings
      decreases |visible| - page.next, page.more
    {
      var next := ReadSnapshot(classify, files(pages), page.next, watermark, limit);
      VisibleStays(files(0), files(pages), watermark);
      GatherMore(classify, visible, all, page, limit);
      hide Visible;
      if next == None {
        return None, warnings;
      }
      warnings := warnings + (startup + next.page.warnings);
      page := Extended(page, next.page);
      pages := pages + 1;
    }
    reading := Some(page);
  }

  lemma VisibleStays(file: Bytes, grown: Bytes, watermark: nat)
    requires file <= grown && watermark <= |file|
    ensures Visible(grown, watermark) == file[..watermark]
  {
  }

  /** A full-session query reads every line visible at its first page: the records in order, and each warning
      that a line deserves or the last open gave, once. */
  method Query<R>(
      classify: Classifier<R>, files: nat -> Bytes, after: nat, requested: Basics.Option<nat>, limit: nat,
      startup: seq<Warning>, before: (Warning, Warning) -> bool)
    returns (reading: Reading<R>)
    requires limit > 0 && classify([]) == Blank && StrictOrder(before)
    requires forall k: nat :: files(0) <= files(k)
    ensures var visible := if requested.Some? && requested.value <= |files(0)| then files(0)[..requested.value]
                           else files(0);
            var start := if after < |visible| then after else |visible|;
            && (reading.Some? <==> Legible(classify, visible, start))
            && (reading.Some? ==>
                  && reading.page.records == Events(classify, RecordLines(visible, start))
                  && reading.page.next == |visible| && !reading.page.more
                  && Ascending(before, reading.page.warnings)
                  && forall w :: w in reading.page.warnings <==>
                                 w in startup || Deserved(classify, visible, start, w))
  {
    ghost var visible := files(0)[..Watermark(files(0), requested)];
    assert files(0)[..|files(0)|] == files(0);
    BodyHolds(classify, visible, Basics.Min(after, |visible|));
    hide SurveyFrom, Legible, Deserved, Events, RecordLines, Body, HeaderReadable;
    var warnings;
    reading, warnings := LoadPages(classify, files, after, requested, limit, startup);
    if reading.Some? {
      SortedDistinctIs(before, warnings);
      reading := Some(reading.page.(warnings := SortedDistinct(before, warnings)));
    }
  }
}
