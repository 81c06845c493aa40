/**
 * The client's session: the receive loop that frames the byte stream into
 * lines, decodes each line and applies `welcome` and `state` messages to the
 * client's identity and player list (`Client.recv_loop` in client/client.py).
 */
module Session {
  import opened Wire
  import opened Framing
  import opened Json

  /** What one decoded line does to the client. */
  datatype Event =
    | Welcome(id: Value)       // {"type": "welcome", "id": ...}
    | State(players: Value)    // {"type": "state", "players": ...}
    | Ignored                  // any other "type"
    | Fatal                    // decode error, missing key, or not an object: the loop ends

  /**
   * The dispatch of one line. `msg["type"]` raises on a value that is not an
   * object (TypeError) and on a missing key (KeyError); so do `msg["id"]` and
   * `msg["players"]`. Every exception is caught by the loop's bare `except`,
   * which leaves the loop.
   */
  function Classify(d: Decoded): Event {
    match d
    case Malformed => Fatal
    case Parsed(Object(m)) =>
      if "type" !in m then Fatal
      else if m["type"] == Str("welcome") then (if "id" in m then Welcome(m["id"]) else Fatal)
      else if m["type"] == Str("state") then (if "players" in m then State(m["players"]) else Fatal)
      else Ignored
    case Parsed(_) => Fatal
  }

  /** What the foreground reads: the player list, and the identity if one was assigned. */
  datatype View = View(players: Value, id: Option<Value>)

  /** A fresh client: `players = []` and no `id` attribute yet. */
  const Initial: View := View(Array([]), None)

  /** The effect of one non-fatal event: `welcome` sets the identity, `state` replaces the players. */
  function Apply(v: View, e: Event): View {
    match e
    case Welcome(p) => v.(id := Some(p))
    case State(ps) => v.(players := ps)
    case _ => v
  }

  /** The client after a run of lines, and whether a line ended the loop. */
  datatype Run = Run(view: View, halted: bool)

  /** Lines are applied in order until the first fatal one; nothing after it is looked at. */
  function RunLines(v: View, lines: seq<seq<byte>>, decode: seq<byte> -> Decoded): Run
    decreases |lines|
  {
    if lines == [] then Run(v, false)
    else
      var e := Classify(decode(lines[0]));
      if e.Fatal? then Run(v, true) else RunLines(Apply(v, e), lines[1..], decode)
  }

  /** Running two batches of lines is running the first, then (unless it halted) the second. */
  lemma {:induction false} RunLinesAppend(v: View, a: seq<seq<byte>>, b: seq<seq<byte>>, decode: seq<byte> -> Decoded)
    ensures RunLines(v, a + b, decode) ==
      if RunLines(v, a, decode).halted then RunLines(v, a, decode)
      else RunLines(RunLines(v, a, decode).view, b, decode)
    decreases |a|
  {
    if a == [] {
      assert a + b == b;
    } else {
      assert (a + b)[0] == a[0];
      assert (a + b)[1..] == a[1..] + b;
      var e := Classify(decode(a[0]));
      if !e.Fatal? {
        RunLinesAppend(Apply(v, e), a[1..], b, decode);
      }
    }
  }

  /** One more line: it is applied, unless an earlier line or this one ended the loop. */
  lemma RunLinesSnoc(v: View, a: seq<seq<byte>>, line: seq<byte>, decode: seq<byte> -> Decoded)
    requires !RunLines(v, a, decode).halted
    ensures var e := Classify(decode(line));
      RunLines(v, a + [line], decode) ==
        if e.Fatal? then Run(RunLines(v, a, decode).view, true)
        else Run(Apply(RunLines(v, a, decode).view, e), false)
  {
    RunLinesAppend(v, a, [line], decode);
  }

  /**
   * A fatal line ends the loop: the client keeps what it had before that line,
   * and no later line is processed.
   */
  lemma FatalLineStops(v: View, a: seq<seq<byte>>, line: seq<byte>, b: seq<seq<byte>>, decode: seq<byte> -> Decoded)
    requires Classify(decode(line)) == Fatal
    ensures RunLines(v, a + [line] + b, decode) == Run(RunLines(v, a, decode).view, true)
  {
    RunLinesAppend(v, a + [line], b, decode);
    RunLinesAppend(v, a, [line], decode);
  }

  /** A line of unknown type changes neither the players nor the identity, wherever it occurs. */
  lemma IgnoredLineInvisible(v: View, a: seq<seq<byte>>, line: seq<byte>, b: seq<seq<byte>>, decode: seq<byte> -> Decoded)
    requires Classify(decode(line)) == Ignored
    ensures RunLines(v, a + [line] + b, decode) == RunLines(v, a + b, decode)
  {
    RunLinesAppend(v, a + [line], b, decode);
    RunLinesAppend(v, a, [line], decode);
    RunLinesAppend(v, a, b, decode);
  }

  /**
   * A `state` line sets the players to exactly its list, whatever they were,
   * and leaves the identity alone.
   */
  lemma StateReplacesPlayers(v: View, a: seq<seq<byte>>, line: seq<byte>, decode: seq<byte> -> Decoded)
    requires Classify(decode(line)).State? && !RunLines(v, a, decode).halted
    ensures RunLines(v, a + [line], decode) ==
      Run(View(Classify(decode(line)).players, RunLines(v, a, decode).view.id), false)
  {
    RunLinesSnoc(v, a, line, decode);
  }

  /** The same `state` line twice leaves the players equal to its list: nothing accumulates. */
  lemma StateIdempotent(v: View, a: seq<seq<byte>>, line: seq<byte>, decode: seq<byte> -> Decoded)
    requires Classify(decode(line)).State?
    ensures RunLines(v, a + [line, line], decode) == RunLines(v, a + [line], decode)
  {
    assert a + [line, line] == (a + [line]) + [line];
    RunLinesAppend(v, a + [line], [line], decode);
    RunLinesAppend(v, a, [line], decode);
  }

  /** Lines none of which is a `welcome` leave the identity as it was. */
  lemma {:induction false} NoWelcomeKeepsIdentity(v: View, lines: seq<seq<byte>>, decode: seq<byte> -> Decoded)
    requires forall k :: 0 <= k < |lines| ==> !Classify(decode(lines[k])).Welcome?
    ensures RunLines(v, lines, decode).view.id == v.id
    decreases |lines|
  {
    if lines != [] {
      var e := Classify(decode(lines[0]));
      assert !e.Welcome?;
      if !e.Fatal? {
        forall k | 0 <= k < |lines[1..]| ensures !Classify(decode(lines[1..][k])).Welcome? {
          assert lines[1..][k] == lines[k + 1];
        }
        NoWelcomeKeepsIdentity(Apply(v, e), lines[1..], decode);
      }
    }
  }

  /**
   * Identity is absent until a `welcome` arrives; after a `welcome` with id `p`,
   * lines that are not `welcome` (`state`, unknown types, a fatal line) keep it `p`.
   */
  lemma WelcomeSticks(v: View, before: seq<seq<byte>>, w: seq<byte>, after: seq<seq<byte>>, decode: seq<byte> -> Decoded)
    requires v.id == None
    requires forall k :: 0 <= k < |before| ==> !Classify(decode(before[k])).Welcome?
    requires forall k :: 0 <= k < |after| ==> !Classify(decode(after[k])).Welcome?
    requires Classify(decode(w)).Welcome?
    ensures RunLines(v, before, decode).view.id == None
    ensures !RunLines(v, before, decode).halted ==>
      RunLines(v, before + [w] + after, decode).view.id == Some(Classify(decode(w)).id)
  {
    NoWelcomeKeepsIdentity(v, before, decode);
    var r := RunLines(v, before, decode);
    if !r.halted {
      RunLinesSnoc(v, before, w, decode);
      RunLinesAppend(v, before + [w], after, decode);
      NoWelcomeKeepsIdentity(RunLines(v, before + [w], decode).view, after, decode);
    }
  }

  /** The events of the lines the loop handles: those before the first fatal line. */
  function Handled(lines: seq<seq<byte>>, decode: seq<byte> -> Decoded): seq<Event>
    decreases |lines|
  {
    if lines == [] then []
    else
      var e := Classify(decode(lines[0]));
      if e.Fatal? then [] else [e] + Handled(lines[1..], decode)
  }

  /** The id of the last `welcome` among the events, or `otherwise` when there is none. */
  function LastWelcome(events: seq<Event>, otherwise: Option<Value>): Option<Value>
    decreases |events|
  {
    if events == [] then otherwise
    else match events[|events| - 1]
      case Welcome(p) => Some(p)
      case _ => LastWelcome(events[..|events| - 1], otherwise)
  }

  /** The list of the last `state` among the events, or `otherwise` when there is none. */
  function LastState(events: seq<Event>, otherwise: Value): Value
    decreases |events|
  {
    if events == [] then otherwise
    else match events[|events| - 1]
      case State(ps) => ps
      case _ => LastState(events[..|events| - 1], otherwise)
  }

  lemma {:induction false} LastWelcomeCons(e: Event, events: seq<Event>, otherwise: Option<Value>)
    ensures LastWelcome([e] + events, otherwise) ==
      LastWelcome(events, if e.Welcome? then Some(e.id) else otherwise)
    decreases |events|
  {
    var es := [e] + events;
    if events == [] {
      assert es[..0] == [];
    } else {
      assert es[|es| - 1] == events[|events| - 1];
      assert es[..|es| - 1] == [e] + events[..|events| - 1];
      LastWelcomeCons(e, events[..|events| - 1], otherwise);
    }
  }

  lemma {:induction false} LastStateCons(e: Event, events: seq<Event>, otherwise: Value)
    ensures LastState([e] + events, otherwise) ==
      LastState(events, if e.State? then e.players else otherwise)
    decreases |events|
  {
    var es := [e] + events;
    if events == [] {
      assert es[..0] == [];
    } else {
      assert es[|es| - 1] == events[|events| - 1];
      assert es[..|es| - 1] == [e] + events[..|events| - 1];
      LastStateCons(e, events[..|events| - 1], otherwise);
    }
  }

  /**
   * The client's view after a run is determined by the handled lines alone:
   * the identity of the last `welcome` and the players of the last `state`.
   */
  lemma {:induction false} ViewIsLastMessages(v: View, lines: seq<seq<byte>>, decode: seq<byte> -> Decoded)
    ensures RunLines(v, lines, decode).view ==
      View(LastState(Handled(lines, decode), v.players), LastWelcome(Handled(lines, decode), v.id))
    decreases |lines|
  {
    if lines != [] {
      var e := Classify(decode(lines[0]));
      if !e.Fatal? {
        ViewIsLastMessages(Apply(v, e), lines[1..], decode);
        LastWelcomeCons(e, Handled(lines[1..], decode), v.id);
        LastStateCons(e, Handled(lines[1..], decode), v.players);
      }
    }
  }

  /** The handled events are those of a prefix of the lines. */
  lemma {:induction false} HandledIsPrefix(lines: seq<seq<byte>>, decode: seq<byte> -> Decoded)
    ensures |Handled(lines, decode)| <= |lines|
    ensures forall j :: 0 <= j < |Handled(lines, decode)| ==>
      Handled(lines, decode)[j] == Classify(decode(lines[j]))
    decreases |lines|
  {
    if lines != [] && !Classify(decode(lines[0])).Fatal? {
      HandledIsPrefix(lines[1..], decode);
    }
  }

  lemma {:induction false} LastWelcomeFrom(events: seq<Event>)
    requires LastWelcome(events, None).Some?
    ensures exists j :: 0 <= j < |events| && events[j] == Welcome(LastWelcome(events, None).value)
    decreases |events|
  {
    var n := |events|;
    if !events[n - 1].Welcome? {
      LastWelcomeFrom(events[..n - 1]);
      var j :| 0 <= j < n - 1 && events[..n - 1][j] == Welcome(LastWelcome(events, None).value);
      assert events[j] == events[..n - 1][j];
    }
  }

  /** A client that holds an identity was sent a `welcome` carrying exactly that id. */
  lemma IdentityComesFromWelcome(lines: seq<seq<byte>>, decode: seq<byte> -> Decoded)
    requires RunLines(Initial, lines, decode).view.id.Some?
    ensures exists k :: (0 <= k < |lines| &&
      Classify(decode(lines[k])) == Welcome(RunLines(Initial, lines, decode).view.id.value))
  {
    ViewIsLastMessages(Initial, lines, decode);
    var events := Handled(lines, decode);
    LastWelcomeFrom(events);
    HandledIsPrefix(lines, decode);
    var j :| 0 <= j < |events| && events[j] == Welcome(LastWelcome(events, None).value);
    assert Classify(decode(lines[j])) == events[j];
  }

  /** The loop halts exactly when one of the lines is fatal. */
  lemma {:induction false} HaltsIffFatalLine(v: View, lines: seq<seq<byte>>, decode: seq<byte> -> Decoded)
    ensures RunLines(v, lines, decode).halted <==>
      exists k :: 0 <= k < |lines| && Classify(decode(lines[k])).Fatal?
    decreases |lines|
  {
    if lines != [] {
      var e := Classify(decode(lines[0]));
      if !e.Fatal? {
        HaltsIffFatalLine(Apply(v, e), lines[1..], decode);
        if exists k :: 0 <= k < |lines| && Classify(decode(lines[k])).Fatal? {
          var k :| 0 <= k < |lines| && Classify(decode(lines[k])).Fatal?;
          assert lines[1..][k - 1] == lines[k];
        }
        if exists k :: 0 <= k < |lines[1..]| && Classify(decode(lines[1..][k])).Fatal? {
          var k :| 0 <= k < |lines[1..]| && Classify(decode(lines[1..][k])).Fatal?;
          assert lines[k + 1] == lines[1..][k];
        }
      }
    }
  }

  /** The chunks the loop appends to its buffer: those before the first empty read. */
  function Delivered(chunks: seq<seq<byte>>): seq<seq<byte>>
    decreases |chunks|
  {
    if chunks == [] || chunks[0] == [] then [] else [chunks[0]] + Delivered(chunks[1..])
  }

  /** The bytes the loop takes in, whatever the chunking. */
  function Received(chunks: seq<seq<byte>>): seq<byte> {
    Flatten(Delivered(chunks))
  }

  lemma {:induction false} DeliveredPrefix(chunks: seq<seq<byte>>, k: nat)
    requires k <= |chunks|
    requires forall j :: 0 <= j < k ==> chunks[j] != []
    ensures Delivered(chunks) == chunks[..k] + Delivered(chunks[k..])
    decreases k
  {
    if k > 0 {
      DeliveredPrefix(chunks[1..], k - 1);
      assert chunks[1..][k - 1..] == chunks[k..];
      assert chunks[..k] == [chunks[0]] + chunks[1..][..k - 1];
    }
  }

  /** The loop stops reading at index `k` (end of input, or an empty read): it took in exactly the chunks before `k`. */
  lemma DeliveredUpTo(chunks: seq<seq<byte>>, k: nat)
    requires k <= |chunks| && (k == |chunks| || chunks[k] == [])
    requires forall j :: 0 <= j < k ==> chunks[j] != []
    ensures Received(chunks) == Flatten(chunks[..k])
  {
    DeliveredPrefix(chunks, k);
    assert Delivered(chunks[k..]) == [];
    assert chunks[..k] + [] == chunks[..k];
  }

  /** The lines framed from the first `k + 1` chunks begin the lines of everything received. */
  lemma LinesPrefix(chunks: seq<seq<byte>>, k: nat) returns (more: seq<seq<byte>>)
    requires k < |chunks|
    requires forall j :: 0 <= j <= k ==> chunks[j] != []
    ensures SplitLines(Received(chunks)).lines == SplitLines(Flatten(chunks[..k + 1])).lines + more
  {
    DeliveredPrefix(chunks, k + 1);
    FlattenAppend(chunks[..k + 1], Delivered(chunks[k + 1..]));
    var p := Flatten(chunks[..k + 1]);
    var c := Flatten(Delivered(chunks[k + 1..]));
    SplitLinesAppend(p, c);
    more := SplitLines(SplitLines(p).rest + c).lines;
  }

  /** `buf += data`: the extracted lines and the grown buffer still hold exactly the bytes received. */
  lemma EnterChunk(chunks: seq<seq<byte>>, k: nat, done: seq<seq<byte>>, held: seq<byte>)
    requires k < |chunks|
    requires Join(done) + held == Flatten(chunks[..k])
    ensures Join(done) + (held + chunks[k]) == Flatten(chunks[..k + 1])
  {
    assert chunks[..k + 1] == chunks[..k] + [chunks[k]];
    FlattenAppend(chunks[..k], [chunks[k]]);
    assert Flatten([chunks[k]]) == chunks[k] + Flatten([]);
  }

  /** `line, buf = buf.split(b"\n", 1)`: the line, without its terminator, moves from the buffer to the extracted lines. */
  lemma TakeLine(buf: seq<byte>, i: nat, done: seq<seq<byte>>)
    requires IndexOf(buf, NL) == Some(i)
    ensures NL !in buf[..i]
    ensures Join(done + [buf[..i]]) + buf[i + 1..] == Join(done) + buf
  {
    CutAt(buf, i);
    JoinAppend(done, [buf[..i]]);
    JoinCons(buf[..i], []);
  }

  /** A fatal line ends the loop, and what it leaves is what the whole received stream leaves. */
  lemma TornAt(v: View, chunks: seq<seq<byte>>, k: nat, done: seq<seq<byte>>, buf: seq<byte>,
               decode: seq<byte> -> Decoded)
    requires k < |chunks| && forall j :: 0 <= j <= k ==> chunks[j] != []
    requires Join(done) + buf == Flatten(chunks[..k + 1])
    requires forall j :: 0 <= j < |done| ==> NL !in done[j]
    requires RunLines(v, done, decode).halted
    ensures RunLines(v, SplitLines(Received(chunks)).lines, decode) == RunLines(v, done, decode)
  {
    var more := LinesPrefix(chunks, k);
    var rest := FramedAfter(done, buf);
    HaltedPrefix(v, done, rest, more, SplitLines(Received(chunks)).lines, decode);
  }

  lemma HaltedPrefix(v: View, done: seq<seq<byte>>, rest: seq<seq<byte>>, more: seq<seq<byte>>,
                     all: seq<seq<byte>>, decode: seq<byte> -> Decoded)
    requires all == (done + rest) + more
    requires RunLines(v, done, decode).halted
    ensures RunLines(v, all, decode) == RunLines(v, done, decode)
  {
    assert all == done + (rest + more);
    RunLinesHalted(v, done, rest + more, decode);
  }

  /** The lines of `Join(done) + buf` are `done` followed by those of `buf`. */
  lemma FramedAfter(done: seq<seq<byte>>, buf: seq<byte>) returns (rest: seq<seq<byte>>)
    requires forall j :: 0 <= j < |done| ==> NL !in done[j]
    ensures SplitLines(Join(done) + buf).lines == done + rest
  {
    SplitAfterJoin(done, buf);
    rest := SplitLines(buf).lines;
  }

  /** Once halted, later lines do not matter. */
  lemma RunLinesHalted(v: View, a: seq<seq<byte>>, b: seq<seq<byte>>, decode: seq<byte> -> Decoded)
    requires RunLines(v, a, decode).halted
    ensures RunLines(v, a + b, decode) == RunLines(v, a, decode)
  {
    RunLinesAppend(v, a, b, decode);
  }

  /** The loop stops reading with a terminator-free buffer: the lines it extracted are all the stream's lines. */
  lemma StoppedAt(chunks: seq<seq<byte>>, k: nat, done: seq<seq<byte>>, buf: seq<byte>)
    requires k <= |chunks| && (k == |chunks| || chunks[k] == [])
    requires forall j :: 0 <= j < k ==> chunks[j] != []
    requires Join(done) + buf == Flatten(chunks[..k])
    requires NL !in buf && forall j :: 0 <= j < |done| ==> NL !in done[j]
    ensures SplitLines(Received(chunks)).lines == done
  {
    DeliveredUpTo(chunks, k);
    SplitJoin(Framed(done, buf));
  }

  /** How the receive loop ended. */
  datatype Outcome =
    | Stopped      // the running flag was already clear
    | PeerClosed   // a read returned no bytes (peer closed, or the read raised)
    | Torn         // a line failed to decode, lacked a key, or was not an object
    | Waiting      // every chunk was consumed; the loop would block in the next read

  /**
   * The receive loop, stated over the received stream as a whole: the view after
   * the lines of everything received before the first empty read, and how it ended.
   */
  function Receive(v: View, chunks: seq<seq<byte>>, decode: seq<byte> -> Decoded): (View, Outcome) {
    var r := RunLines(v, SplitLines(Received(chunks)).lines, decode);
    (r.view, if r.halted then Torn else if [] in chunks then PeerClosed else Waiting)
  }

  /** Without an empty read, the loop takes in every chunk. */
  lemma DeliveredAll(chunks: seq<seq<byte>>)
    requires [] !in chunks
    ensures Delivered(chunks) == chunks
  {
    forall j | 0 <= j < |chunks| ensures chunks[j] != [] {
      assert chunks[j] in chunks;
    }
    DeliveredPrefix(chunks, |chunks|);
    assert chunks[..|chunks|] == chunks;
    assert chunks[|chunks|..] == [];
  }

  /** The framing `Receive` applies is the read-by-read framing of the delivered chunks. */
  lemma ReceivedIsFeedChunks(chunks: seq<seq<byte>>)
    ensures SplitLines(Received(chunks)) == FeedChunks(Start, Delivered(chunks))
  {
    assert SplitLines([]) == Start;
    FeedChunksIsSplitLines([], Delivered(chunks));
    assert [] + Received(chunks) == Received(chunks);
  }

  /**
   * The receive loop does not depend on how the stream is cut into reads:
   * two chunkings of the same bytes, neither with an empty read, leave the
   * same client and end the same way.
   */
  lemma ReceiveIgnoresChunking(v: View, c1: seq<seq<byte>>, c2: seq<seq<byte>>, decode: seq<byte> -> Decoded)
    requires [] !in c1 && [] !in c2 && Flatten(c1) == Flatten(c2)
    ensures Receive(v, c1, decode) == Receive(v, c2, decode)
  {
    DeliveredAll(c1);
    DeliveredAll(c2);
    ReceivedIsFeedChunks(c1);
    ReceivedIsFeedChunks(c2);
    FramingIgnoresChunking(c1, c2);
  }

  /** One read carrying two complete lines frames into exactly those two lines. */
  lemma TwoLinesInOneRead(l1: seq<byte>, l2: seq<byte>)
    requires NL !in l1 && NL !in l2
    ensures SplitLines(Received([l1 + [NL] + l2 + [NL]])) == Framed([l1, l2], [])
  {
    var c := l1 + [NL] + l2 + [NL];
    assert Delivered([c]) == [c];
    assert Flatten([c]) == c + Flatten([]);
    assert Received([c]) == c;
    assert Join([l1, l2]) + [] == c by {
      JoinCons(l2, []);
      JoinCons(l1, [l2]);
      assert [l1] + [l2] == [l1, l2];
    }
    SplitJoin(Framed([l1, l2], []));
  }

  /** The loop over a single nonempty read that carries the lines `l1` and `l2`. */
  lemma ReceiveTwoLines(v: View, l1: seq<byte>, l2: seq<byte>, decode: seq<byte> -> Decoded)
    requires NL !in l1 && NL !in l2
    ensures Receive(v, [l1 + [NL] + l2 + [NL]], decode) ==
      (RunLines(v, [l1, l2], decode).view, if RunLines(v, [l1, l2], decode).halted then Torn else Waiting)
  {
    TwoLinesInOneRead(l1, l2);
    assert [] !in [l1 + [NL] + l2 + [NL]];
  }

  lemma ClassifyWelcome(id: Value)
    ensures Classify(Parsed(Object(map["type" := Str("welcome"), "id" := id]))) == Welcome(id)
  {
    var m := map["type" := Str("welcome"), "id" := id];
    assert "type" in m && m["type"] == Str("welcome") && "id" in m && m["id"] == id;
  }

  lemma ClassifyState(players: Value)
    ensures Classify(Parsed(Object(map["type" := Str("state"), "players" := players]))) == State(players)
  {
    var m := map["type" := Str("state"), "players" := players];
    assert "type" in m && m["type"] == Str("state") && "players" in m && m["players"] == players;
    assert Str("state") != Str("welcome");
  }

  /** Two lines neither of which is fatal are both applied, in order. */
  lemma RunTwoLines(v: View, l1: seq<byte>, l2: seq<byte>, decode: seq<byte> -> Decoded)
    requires !Classify(decode(l1)).Fatal? && !Classify(decode(l2)).Fatal?
    ensures RunLines(v, [l1, l2], decode) ==
      Run(Apply(Apply(v, Classify(decode(l1))), Classify(decode(l2))), false)
  {
    var v1 := Apply(v, Classify(decode(l1)));
    assert [l1, l2][0] == l1 && [l1, l2][1..] == [l2];
    assert RunLines(v, [l1, l2], decode) == RunLines(v1, [l2], decode);
    assert [l2][0] == l2 && [l2][1..] == [];
    assert RunLines(v1, [l2], decode) == RunLines(Apply(v1, Classify(decode(l2))), [], decode);
  }

  /**
   * A server that sends `welcome` with id "A" and then a `state`: the client
   * holds identity "A" and exactly the players of that `state`.
   */
  lemma WelcomeThenState(l1: seq<byte>, l2: seq<byte>, players: Value, decode: seq<byte> -> Decoded)
    requires NL !in l1 && NL !in l2
    requires decode(l1) == Parsed(Object(map["type" := Str("welcome"), "id" := Str("A")]))
    requires decode(l2) == Parsed(Object(map["type" := Str("state"), "players" := players]))
    ensures Receive(Initial, [l1 + [NL] + l2 + [NL]], decode) == (View(players, Some(Str("A"))), Waiting)
  {
    ReceiveTwoLines(Initial, l1, l2, decode);
    ClassifyWelcome(Str("A"));
    ClassifyState(players);
    RunTwoLines(Initial, l1, l2, decode);
  }

  /**
   * A line that does not decode, followed by a valid `state`: the loop ends at
   * the bad line and the `state` is never applied.
   */
  lemma MalformedThenState(l1: seq<byte>, l2: seq<byte>, players: Value, decode: seq<byte> -> Decoded)
    requires NL !in l1 && NL !in l2
    requires decode(l1) == Malformed
    requires decode(l2) == Parsed(Object(map["type" := Str("state"), "players" := players]))
    ensures Receive(Initial, [l1 + [NL] + l2 + [NL]], decode) == (Initial, Torn)
  {
    ReceiveTwoLines(Initial, l1, l2, decode);
  }

  /** The client object: the state `recv_loop` writes and the render loop reads. */
  class Client {
    var players: Value
    var id: Option<Value>
    var running: bool

    function Snapshot(): View
      reads this
    {
      View(players, id)
    }

    /** `Client()`: no players, no identity, running. */
    constructor ()
      ensures Snapshot() == Initial && running
    {
      players := Array([]);
      id := None;
      running := true;
    }

    /** The main program's shutdown: clear the running flag. */
    method Stop()
      modifies this
      ensures !running && Snapshot() == old(Snapshot())
    {
      running := false;
    }

    /**
     * `recv_loop` over the reads the socket returns, in order: each read is
     * appended to the buffer, every complete line is taken out and dispatched,
     * and a partial line waits for the next read.
     */
    method RecvLoop(chunks: seq<seq<byte>>, decode: seq<byte> -> Decoded) returns (outcome: Outcome)
      modifies this
      ensures running == old(running)
      ensures !old(running) ==> outcome == Stopped && Snapshot() == old(Snapshot())
      ensures old(running) ==> (Snapshot(), outcome) == Receive(old(Snapshot()), chunks, decode)
    {
      ghost var v0 := Snapshot();
      var buf: seq<byte> := [];
      ghost var done: seq<seq<byte>> := [];
      var k := 0;
      assert Flatten(chunks[..0]) == [];
      while running
        invariant running == old(running)
        invariant 0 <= k <= |chunks|
        invariant !running ==> k == 0 && done == []
        invariant forall j :: 0 <= j < k ==> chunks[j] != []
        invariant Join(done) + buf == Flatten(chunks[..k])
        invariant NL !in buf && forall j :: 0 <= j < |done| ==> NL !in done[j]
        invariant RunLines(v0, done, decode) == Run(Snapshot(), false)
        decreases |chunks| - k
      {
        if k == |chunks| {
          StoppedAt(chunks, k, done, buf);
          assert [] !in chunks;
          return Waiting;
        }
        var data := chunks[k];
        if data == [] {
          StoppedAt(chunks, k, done, buf);
          return PeerClosed;
        }
        EnterChunk(chunks, k, done, buf);
        buf := buf + data;
        while NL in buf
          invariant running && running == old(running)
          invariant Join(done) + buf == Flatten(chunks[..k + 1])
          invariant forall j :: 0 <= j < |done| ==> NL !in done[j]
          invariant RunLines(v0, done, decode) == Run(Snapshot(), false)
          decreases |buf|
        {
          var i := IndexOf(buf, NL).value;
          var line := buf[..i];
          TakeLine(buf, i, done);
          buf := buf[i + 1..];
          RunLinesSnoc(v0, done, line, decode);
          done := done + [line];
          match Classify(decode(line))
          case Fatal =>
            TornAt(v0, chunks, k, done, buf, decode);
            return Torn;
          case Welcome(p) =>
            id := Some(p);
          case State(ps) =>
            players := ps;
          case Ignored =>
        }
        k := k + 1;
      }
      return Stopped;
    }
  }
}
