/**
 * Newline framing of the session byte stream: the receive buffer is split on the
 * first b"\n" for as long as one is present, and a trailing partial line is kept.
 */
module Framing {
  import opened Wire

  /** Complete lines taken out of a buffer (terminators removed) and the retained tail. */
  datatype Framed = Framed(lines: seq<seq<byte>>, rest: seq<byte>)

  /** Nothing received yet: no lines, empty buffer. */
  const Start: Framed := Framed([], [])

  /** Repeatedly `line, buf = buf.split(b"\n", 1)` while a terminator is present. */
  function SplitLines(s: seq<byte>): Framed
    decreases |s|
  {
    match IndexOf(s, NL)
    case None => Framed([], s)
    case Some(i) =>
      var f := SplitLines(s[i + 1..]);
      Framed([s[..i]] + f.lines, f.rest)
  }

  /** The inverse of framing: each line followed by its terminator. */
  function Join(lines: seq<seq<byte>>): seq<byte> {
    if lines == [] then [] else lines[0] + [NL] + Join(lines[1..])
  }

  /** No line and no retained tail holds a terminator. */
  predicate Unframed(f: Framed) {
    NL !in f.rest && forall k :: 0 <= k < |f.lines| ==> NL !in f.lines[k]
  }

  lemma {:induction false} JoinAppend(a: seq<seq<byte>>, b: seq<seq<byte>>)
    ensures Join(a + b) == Join(a) + Join(b)
  {
    if a == [] {
      assert a + b == b;
    } else {
      assert (a + b)[1..] == a[1..] + b;
      JoinAppend(a[1..], b);
      assert Join(a + b) == a[0] + [NL] + Join(a[1..] + b);
    }
  }

  /** One step of the split loop: the line before the first terminator, then the rest framed. */
  lemma SplitLinesStep(s: seq<byte>, i: nat)
    requires IndexOf(s, NL) == Some(i)
    ensures SplitLines(s) == Framed([s[..i]] + SplitLines(s[i + 1..]).lines, SplitLines(s[i + 1..]).rest)
  {
  }

  lemma JoinCons(line: seq<byte>, lines: seq<seq<byte>>)
    ensures Join([line] + lines) == line + [NL] + Join(lines)
  {
    assert ([line] + lines)[1..] == lines;
  }

  /** Re-terminating a line in front of a framed tail gives back the bytes it came from. */
  lemma JoinConsRest(line: seq<byte>, tail: seq<byte>, lines: seq<seq<byte>>, rest: seq<byte>)
    requires Join(lines) + rest == tail
    ensures Join([line] + lines) + rest == line + [NL] + tail
  {
    JoinCons(line, lines);
  }

  lemma CutAt(s: seq<byte>, i: nat)
    requires i < |s| && s[i] == NL
    ensures s == s[..i] + [NL] + s[i + 1..]
  {
  }

  /** One step of the induction below, with the framing of the tail taken as given. */
  lemma SplitLinesJoinStep(s: seq<byte>, i: nat)
    requires IndexOf(s, NL) == Some(i)
    requires Join(SplitLines(s[i + 1..]).lines) + SplitLines(s[i + 1..]).rest == s[i + 1..]
    ensures Join(SplitLines(s).lines) + SplitLines(s).rest == s
  {
    var line, tail := s[..i], s[i + 1..];
    var f := SplitLines(tail);
    SplitLinesStep(s, i);
    CutAt(s, i);
    JoinConsRest(line, tail, f.lines, f.rest);
  }

  /** Without a terminator the whole input stays in the buffer. */
  lemma SplitLinesNone(s: seq<byte>)
    requires IndexOf(s, NL).None?
    ensures SplitLines(s) == Framed([], s)
  {
  }

  lemma SplitLinesJoinNone(s: seq<byte>)
    requires IndexOf(s, NL).None?
    ensures Join(SplitLines(s).lines) + SplitLines(s).rest == s
  {
    SplitLinesNone(s);
    assert Join([]) + s == s;
  }

  /** Framing loses, duplicates and reorders nothing: the lines, re-terminated, and the buffer give back the input. */
  lemma {:induction false} SplitLinesJoin(s: seq<byte>)
    ensures Join(SplitLines(s).lines) + SplitLines(s).rest == s
    decreases |s|
  {
    match IndexOf(s, NL)
    case None => SplitLinesJoinNone(s);
    case Some(i) =>
      SplitLinesJoin(s[i + 1..]);
      SplitLinesJoinStep(s, i);
  }

  lemma UnframedCons(line: seq<byte>, f: Framed)
    requires NL !in line && Unframed(f)
    ensures Unframed(Framed([line] + f.lines, f.rest))
  {
    var lines := [line] + f.lines;
    forall k | 0 <= k < |lines| ensures NL !in lines[k] {
      if k > 0 { assert lines[k] == f.lines[k - 1]; }
    }
  }

  lemma SplitLinesUnframedStep(s: seq<byte>, i: nat)
    requires IndexOf(s, NL) == Some(i)
    requires Unframed(SplitLines(s[i + 1..]))
    ensures Unframed(SplitLines(s))
  {
    SplitLinesStep(s, i);
    UnframedCons(s[..i], SplitLines(s[i + 1..]));
  }

  /** Framing leaves no terminator in any line nor in the retained buffer. */
  lemma {:induction false} SplitLinesUnframed(s: seq<byte>)
    ensures Unframed(SplitLines(s))
    decreases |s|
  {
    match IndexOf(s, NL)
    case None => SplitLinesNone(s);
    case Some(i) =>
      SplitLinesUnframed(s[i + 1..]);
      SplitLinesUnframedStep(s, i);
  }

  lemma SplitLinesSound(s: seq<byte>)
    ensures Join(SplitLines(s).lines) + SplitLines(s).rest == s
    ensures Unframed(SplitLines(s))
  {
    SplitLinesJoin(s);
    SplitLinesUnframed(s);
  }

  /** A terminator-free line, its terminator and whatever follows: the line is cut at that terminator. */
  lemma CutLine(line: seq<byte>, j: seq<byte>, r: seq<byte>)
    requires NL !in line
    ensures IndexOf(line + [NL] + j + r, NL) == Some(|line|)
    ensures (line + [NL] + j + r)[..|line|] == line
    ensures (line + [NL] + j + r)[|line| + 1..] == j + r
  {
    assert line + [NL] + j + r == line + ([NL] + (j + r));
    IndexOfAfter(line, [NL] + (j + r), NL);
  }

  /** The first terminator of a joined stream is the one after its first line. */
  lemma JoinFirstTerminator(f: Framed)
    requires Unframed(f) && f.lines != []
    ensures IndexOf(Join(f.lines) + f.rest, NL) == Some(|f.lines[0]|)
    ensures (Join(f.lines) + f.rest)[..|f.lines[0]|] == f.lines[0]
    ensures (Join(f.lines) + f.rest)[|f.lines[0]| + 1..] == Join(f.lines[1..]) + f.rest
  {
    assert Join(f.lines) == f.lines[0] + [NL] + Join(f.lines[1..]);
    CutLine(f.lines[0], Join(f.lines[1..]), f.rest);
  }

  lemma SplitJoinNone(rest: seq<byte>)
    requires NL !in rest
    ensures SplitLines(Join([]) + rest) == Framed([], rest)
  {
    assert Join([]) + rest == rest;
  }

  lemma UnframedTail(f: Framed)
    requires Unframed(f) && f.lines != []
    ensures Unframed(Framed(f.lines[1..], f.rest))
  {
    forall k | 0 <= k < |f.lines| - 1 ensures NL !in f.lines[1..][k] {
      assert f.lines[1..][k] == f.lines[k + 1];
    }
  }

  /** One step of the induction below, with the framing of the later lines taken as given. */
  lemma SplitJoinStep(f: Framed)
    requires Unframed(f) && f.lines != []
    requires SplitLines(Join(f.lines[1..]) + f.rest) == Framed(f.lines[1..], f.rest)
    ensures SplitLines(Join(f.lines) + f.rest) == f
  {
    JoinFirstTerminator(f);
    SplitLinesStep(Join(f.lines) + f.rest, |f.lines[0]|);
    assert [f.lines[0]] + f.lines[1..] == f.lines;
  }

  /** Framing is determined by the bytes: joined terminator-free lines split back into themselves. */
  lemma {:induction false} SplitJoin(f: Framed)
    requires Unframed(f)
    ensures SplitLines(Join(f.lines) + f.rest) == f
    decreases |f.lines|
  {
    if f.lines == [] {
      SplitJoinNone(f.rest);
    } else {
      UnframedTail(f);
      SplitJoin(Framed(f.lines[1..], f.rest));
      SplitJoinStep(f);
    }
  }

  lemma JoinAppendRest(a: seq<byte>, c: seq<byte>, f: Framed, g: Framed)
    requires Join(f.lines) + f.rest == a && Join(g.lines) + g.rest == f.rest + c
    ensures Join(f.lines + g.lines) + g.rest == a + c
  {
    JoinAppend(f.lines, g.lines);
    calc {
      Join(f.lines + g.lines) + g.rest;
      Join(f.lines) + (Join(g.lines) + g.rest);
      Join(f.lines) + (f.rest + c);
      (Join(f.lines) + f.rest) + c;
    }
  }

  lemma UnframedAppend(f: Framed, g: Framed)
    requires Unframed(f) && Unframed(g)
    ensures Unframed(Framed(f.lines + g.lines, g.rest))
  {
    var lines := f.lines + g.lines;
    forall k | 0 <= k < |lines| ensures NL !in lines[k] {
      if k < |f.lines| { assert lines[k] == f.lines[k]; }
      else { assert lines[k] == g.lines[k - |f.lines|]; }
    }
  }

  /**
   * Appending a chunk to a buffer: the lines already framed stay, and the new
   * lines are those of the retained tail followed by the chunk.
   */
  lemma SplitLinesAppend(a: seq<byte>, c: seq<byte>)
    ensures SplitLines(a + c) == Framed(SplitLines(a).lines + SplitLines(SplitLines(a).rest + c).lines,
                                        SplitLines(SplitLines(a).rest + c).rest)
  {
    var f := SplitLines(a);
    var g := SplitLines(f.rest + c);
    SplitLinesSound(a);
    SplitLinesSound(f.rest + c);
    var h := Framed(f.lines + g.lines, g.rest);
    JoinAppendRest(a, c, f, g);
    UnframedAppend(f, g);
    SplitJoin(h);
  }

  /** Lines already known to be terminator-free stay in front when the rest of a buffer is framed. */
  lemma SplitAfterJoin(lines: seq<seq<byte>>, buf: seq<byte>)
    requires forall k :: 0 <= k < |lines| ==> NL !in lines[k]
    ensures SplitLines(Join(lines) + buf) == Framed(lines + SplitLines(buf).lines, SplitLines(buf).rest)
  {
    var g := SplitLines(buf);
    SplitLinesSound(buf);
    JoinAppendRest(Join(lines), buf, Framed(lines, []), g);
    UnframedAppend(Framed(lines, []), g);
    SplitJoin(Framed(lines + g.lines, g.rest));
  }

  /**
   * The receive loop's framing, chunk by chunk: each chunk is appended to the
   * retained buffer and the complete lines are taken out of it.
   */
  function FeedChunks(f: Framed, chunks: seq<seq<byte>>): Framed
    decreases |chunks|
  {
    if chunks == [] then f
    else
      var g := SplitLines(f.rest + chunks[0]);
      FeedChunks(Framed(f.lines + g.lines, g.rest), chunks[1..])
  }

  lemma FlattenCons(prefix: seq<byte>, chunks: seq<seq<byte>>)
    requires chunks != []
    ensures prefix + chunks[0] + Flatten(chunks[1..]) == prefix + Flatten(chunks)
  {
  }

  /** Feeding chunks frames exactly like framing the whole stream at once. */
  lemma {:induction false} FeedChunksIsSplitLines(prefix: seq<byte>, chunks: seq<seq<byte>>)
    ensures FeedChunks(SplitLines(prefix), chunks) == SplitLines(prefix + Flatten(chunks))
    decreases |chunks|
  {
    if chunks == [] {
      assert prefix + Flatten(chunks) == prefix;
    } else {
      var f := SplitLines(prefix);
      var g := SplitLines(f.rest + chunks[0]);
      calc {
        FeedChunks(f, chunks);
        FeedChunks(Framed(f.lines + g.lines, g.rest), chunks[1..]);
        { SplitLinesAppend(prefix, chunks[0]); }
        FeedChunks(SplitLines(prefix + chunks[0]), chunks[1..]);
        { FeedChunksIsSplitLines(prefix + chunks[0], chunks[1..]); }
        SplitLines(prefix + chunks[0] + Flatten(chunks[1..]));
        { FlattenCons(prefix, chunks); }
        SplitLines(prefix + Flatten(chunks));
      }
    }
  }

  /**
   * Framing does not depend on how the stream was cut into chunks: two chunkings
   * of the same bytes yield the same lines and the same retained buffer.
   */
  lemma FramingIgnoresChunking(c1: seq<seq<byte>>, c2: seq<seq<byte>>)
    requires Flatten(c1) == Flatten(c2)
    ensures FeedChunks(Start, c1) == FeedChunks(Start, c2)
  {
    assert SplitLines([]) == Start;
    FeedChunksIsSplitLines([], c1);
    FeedChunksIsSplitLines([], c2);
  }

  /** After any number of chunks, nothing received is lost, duplicated or reordered. */
  lemma FeedChunksSound(chunks: seq<seq<byte>>)
    ensures Join(FeedChunks(Start, chunks).lines) + FeedChunks(Start, chunks).rest == Flatten(chunks)
    ensures Unframed(FeedChunks(Start, chunks))
  {
    assert SplitLines([]) == Start;
    FeedChunksIsSplitLines([], chunks);
    assert [] + Flatten(chunks) == Flatten(chunks);
    SplitLinesSound(Flatten(chunks));
  }
}
