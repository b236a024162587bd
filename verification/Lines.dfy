/** Byte strings cut at line feeds: the vocabulary shared by the RPC decoder, the
    execution-history log and the saved-session index. */
module Lines {
  newtype byte = x: int | 0 <= x < 256

  type Bytes = seq<byte>

  const LF: byte := 10
  const CR: byte := 13

  /** Index of the first line feed, or the length when there is none. */
  function FirstLf(s: Bytes): (n: nat)
    ensures n <= |s|
    ensures forall i | 0 <= i < n :: s[i] != LF
    ensures n < |s| ==> s[n] == LF
  {
    if s == [] || s[0] == LF then 0 else 1 + FirstLf(s[1..])
  }

  lemma FirstLfIs(s: Bytes, n: nat)
    requires n <= |s| && forall i | 0 <= i < n :: s[i] != LF
    requires n < |s| ==> s[n] == LF
    ensures FirstLf(s) == n
  {
  }

  /** All pieces of `s` between line feeds; the last piece is what follows the final one. */
  function Split(s: Bytes): (pieces: seq<Bytes>)
    ensures |pieces| > 0
    decreases |s|
  {
    var n := FirstLf(s);
    if n == |s| then [s] else [s[..n]] + Split(s[n + 1..])
  }

  lemma SplitOnce(s: Bytes)
    ensures var n := FirstLf(s); Split(s) == if n == |s| then [s] else [s[..n]] + Split(s[n + 1..])
  {
    hide FirstLf;
  }

  /** The inverse of `Split`. */
  function Join(pieces: seq<Bytes>): Bytes
    requires |pieces| > 0
  {
    if |pieces| == 1 then pieces[0] else pieces[0] + [LF] + Join(pieces[1..])
  }

  ghost predicate Unbroken(pieces: seq<Bytes>) {
    forall p <- pieces :: LF !in p
  }

  lemma {:induction false} JoinSplit(s: Bytes)
    ensures Unbroken(Split(s)) && Join(Split(s)) == s
    decreases |s|
  {
    var n := FirstLf(s);
    if n < |s| {
      JoinSplit(s[n + 1..]);
      assert Split(s)[1..] == Split(s[n + 1..]);
      assert s == s[..n] + [LF] + s[n + 1..];
    } else {
      assert s[..n] == s;
    }
  }

  /** A file ends with a line feed exactly when its last piece is empty. */
  lemma {:induction false} LastPiece(s: Bytes)
    ensures var p := Split(s); p[|p| - 1] == [] <==> s == [] || s[|s| - 1] == LF
    decreases |s|
  {
    var n := FirstLf(s);
    if n < |s| {
      LastPiece(s[n + 1..]);
      assert Split(s)[1..] == Split(s[n + 1..]);
    } else {
      assert s == [] || s[|s| - 1] in s[..n];
    }
  }

  lemma {:induction false} SplitJoin(pieces: seq<Bytes>)
    requires |pieces| > 0 && Unbroken(pieces)
    ensures Split(Join(pieces)) == pieces
  {
    hide FirstLf;
    var s := Join(pieces);
    if |pieces| == 1 {
      assert LF !in pieces[0];
      FirstLfIs(s, |s|);
      assert s[..|s|] == s;
    } else {
      var n := |pieces[0]|;
      assert s[..n] == pieces[0] && s[n + 1..] == Join(pieces[1..]);
      assert LF !in pieces[0] && forall i | 0 <= i < n :: s[i] == pieces[0][i];
      FirstLfIs(s, n);
      SplitJoin(pieces[1..]);
      assert pieces == [pieces[0]] + pieces[1..];
    }
  }

  /** Appending bytes only touches the last piece. */
  lemma {:induction false} SplitAppend(a: Bytes, b: Bytes)
    ensures var p := Split(a);
            Split(a + b) == p[..|p| - 1] + Split(p[|p| - 1] + b)
    decreases |a|
  {
    hide FirstLf;
    var n := FirstLf(a);
    var p := Split(a);
    if n == |a| {
      assert p[..0] + Split(a + b) == Split(a + b);
    } else {
      SplitAt(a, b, n);
      SplitAppend(a[n + 1..], b);
      var q := Split(a[n + 1..]);
      assert p == [a[..n]] + q;
      assert p[..|p| - 1] == [a[..n]] + q[..|q| - 1];
      calc {
        Split(a + b);
        [a[..n]] + Split(a[n + 1..] + b);
        [a[..n]] + (q[..|q| - 1] + Split(q[|q| - 1] + b));
        p[..|p| - 1] + Split(p[|p| - 1] + b);
      }
    }
  }

  /** Prepending bytes only touches the first piece. */
  lemma {:induction false} SplitPrepend(a: Bytes, b: Bytes)
    ensures var q := Split(b);
            Split(a + b) == Split(a + q[0]) + q[1..]
    decreases |a|
  {
    hide FirstLf;
    var q := Split(b);
    var n := FirstLf(a);
    if n < |a| {
      SplitAt(a, b, n);
      SplitAt(a, q[0], n);
      SplitPrepend(a[n + 1..], b);
      assert [a[..n]] + (Split(a[n + 1..] + q[0]) + q[1..]) == ([a[..n]] + Split(a[n + 1..] + q[0])) + q[1..];
    } else {
      assert a[..n] == a;
      JoinSplit(b);
      SplitPrependUnbroken(a, b);
      SplitPrependUnbroken(a, q[0]);
      FirstLfIs(q[0], |q[0]|);
      assert Split(q[0]) == [q[0]];
    }
  }

  lemma SplitPrependUnbroken(a: Bytes, b: Bytes)
    requires LF !in a
    ensures Split(a + b) == [a + Split(b)[0]] + Split(b)[1..]
  {
    hide FirstLf;
    var m := FirstLf(b);
    assert (a + b)[..|a| + m] == a + b[..m];
    FirstLfIs(a + b, |a| + m);
    if m < |b| {
      assert (a + b)[|a| + m + 1..] == b[m + 1..];
      assert Split(b)[1..] == Split(b[m + 1..]);
    } else {
      assert b[..m] == b && a + b == (a + b)[..|a| + m];
    }
  }

  lemma SplitAt(a: Bytes, b: Bytes, n: nat)
    requires n == FirstLf(a) < |a|
    ensures Split(a + b) == [a[..n]] + Split(a[n + 1..] + b)
  {
    assert (a + b)[..n] == a[..n];
    FirstLfIs(a + b, n);
    assert (a + b)[n + 1..] == a[n + 1..] + b;
  }

  // ---- lines by their offsets ----

  function LineAt(file: Bytes, at: nat): Bytes
    requires at <= |file|
  {
    file[at..][..FirstLf(file[at..])]
  }

  function LineEnd(file: Bytes, at: nat): (end: nat)
    requires at < |file|
    ensures at < end <= |file|
  {
    var end := at + FirstLf(file[at..]);
    if end == |file| then end else end + 1
  }

  /** A line begins at `o`: at the offset read from, or after a line feed. */
  predicate Begins(file: Bytes, from: nat, o: nat) {
    from <= o < |file| && (o == from || file[o - 1] == LF)
  }

  /** After the line at `at` the next one begins at its end. */
  lemma BeginsNext(file: Bytes, at: nat, o: nat)
    requires at < |file|
    ensures Begins(file, at, o) <==> o == at || Begins(file, LineEnd(file, at), o)
  {
    var n := FirstLf(file[at..]);
    assert forall k | at <= k < at + n :: file[k] == file[at..][k - at] != LF;
    assert n < |file[at..]| ==> file[at + n] == file[at..][n] == LF;
  }
}
