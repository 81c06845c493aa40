# Game client network session, modelled in Dafny

This project models the network session layer of a small multiplayer game
client (`client/client.py`). It covers:

- **Room discovery.** `discover_rooms` broadcasts the `DISCOVER_ROOM` probe on
  every iteration. It collects each UDP reply that decodes as JSON, in arrival
  order, and skips timeouts and malformed replies.
- **The receive loop.** `Client.recv_loop` runs on a background thread. It
  appends each TCP read to a buffer and splits off every complete
  newline-terminated line. Each line is decoded as JSON and dispatched on its
  `"type"`:
  - `welcome` sets the client's `id`;
  - `state` replaces `players`;
  - any other type is ignored.

  An empty read or any exception ends the loop.
- **The input message.** `Client.send_input` writes
  `json.dumps({"dx": dx, "dy": dy})` and one newline.
- **The key mapping.** The main loop maps the arrow keys to the per-frame
  `(dx, dy)`.

Modules:

| module | file | what it holds |
|---|---|---|
| `Wire` | `wire.dfy` | The `byte` type and the terminator `NL` (`b"\n"`). `IndexOf`, which is the first-occurrence search behind `b"\n" in buf` and `buf.split(b"\n", 1)`. `Ascii`, the UTF-8 encoding of ASCII text. `Flatten`, the concatenation of reads. |
| `Json` | `json.dfy` | JSON values, and the result of decoding one line: `Malformed` or `Parsed(value)`. |
| `Framing` | `framing.dfy` | `SplitLines`, which splits a buffer into complete lines and the retained tail. Its inverse `Join`. `FeedChunks`, the same framing done read by read. |
| `Session` | `session.dfy` | `Classify`, the dispatch of one decoded line, including the `KeyError`/`TypeError` cases. `RunLines`, which applies the lines in order until the first fatal one. `Receive`, the loop stated over the whole received stream. The class `Client` with its fields `players`, `id` and `running`, and the imperative `RecvLoop`. |
| `Discovery` | `discovery.dfy` | `Replies`, the specification of what discovery collects. The imperative `DiscoverRooms`. |
| `InputCodec` | `input_codec.dfy` | The decimal text of integers as `json.dumps` writes it. `InputBody` and `EncodeInput`. `DecodeInput`, the reading a conforming peer makes of an input line. |
| `Controls` | `controls.dfy` | `KeyDelta`, the arrow keys to `(dx, dy)`. The message sent for one frame. |

Inputs the program gets from outside become parameters:

- **JSON decoding.** `line.decode()` followed by `json.loads` is a total
  function `decode: seq<byte> -> Decoded`.
- **TCP reads.** The reads `recv(4096)` returns are a sequence of chunks. An
  empty chunk stands for both an empty read and a read that raised: in either
  case the loop leaves before touching its buffer.
- **Discovery iterations.** These are a sequence of `Attempt`s: a failed
  `sendto`, a receive that timed out or raised, or a datagram. The sequence
  stands for the iterations that ran before the deadline.

Two behaviours of the code differ from what a reader of the protocol might
expect, and the model follows the code in both:

- **Malformed lines end the session.** The protocol intends a line that fails
  to decode, or that lacks a required field, to be a per-message error: drop
  the line and continue. In the code, the bare `except: break` ends the loop
  at the first such line, so later `state` lines are never applied.
  `Session.MalformedThenState` states this for a malformed line followed by a
  valid `state`.
- **A repeated `welcome` overwrites the identity.** The protocol intends the
  identity to be assigned once per connection. In the code, a later `welcome`
  overwrites `id`: `Session.ViewIsLastMessages` says the identity is that of
  the last `welcome`.

## Model

| member | source | states |
|---|---|---|
| Wire.IndexOf | client/client.py:49-50 | The index found is the first terminator in the buffer. There is none exactly when the buffer holds no terminator. |
| Framing.SplitLinesSound | client/client.py:49-50 | Nothing is lost, duplicated or reordered: the extracted lines, each re-terminated, followed by the retained buffer, give back the input. No line and no retained buffer contains a terminator. |
| Framing.SplitJoin | client/client.py:49-50 | The other direction of the round trip: terminator-free lines, joined and followed by a terminator-free tail, split back into exactly those lines and that tail. |
| Framing.SplitLinesAppend | client/client.py:48-50 | Appending a read (`buf += data`) keeps the lines already extracted. The new lines are those of the retained tail followed by the read. |
| Framing.FeedChunksIsSplitLines | client/client.py:45-50 | Framing read by read gives the same lines and the same buffer as framing the concatenated bytes at once. |
| Framing.FramingIgnoresChunking | client/client.py:45-50 | Any two chunkings of the same byte stream give the same lines and the same retained buffer. |
| Framing.FeedChunksSound | client/client.py:42-50 | Starting from an empty buffer, after any sequence of reads the lines and the buffer hold exactly the bytes received, and no terminator remains in the buffer. |
| Session.RunLinesAppend | client/client.py:49-57 | Processing two batches of lines is processing the first, then the second unless the first ended the loop. |
| Session.FatalLineStops | client/client.py:51-57 | A line that fails to decode, is not an object or lacks `type`/`id`/`players` ends the loop. The client keeps what it had before that line, and no later line is looked at. |
| Session.IgnoredLineInvisible | client/client.py:52-55 | A line of unknown `type` can be removed from any run without changing the outcome. |
| Session.StateReplacesPlayers | client/client.py:54-55 | A `state` line sets `players` to exactly its list, whatever came before, and leaves the identity unchanged. |
| Session.StateIdempotent | client/client.py:54-55 | Receiving the same `state` line twice gives the same client as receiving it once. |
| Session.NoWelcomeKeepsIdentity | client/client.py:52-53 | Lines none of which is a `welcome` leave the identity as it was. |
| Session.WelcomeSticks | client/client.py:52-53 | Before any `welcome` there is no identity. After a `welcome` with id `p`, later non-`welcome` lines keep it `p`. |
| Session.ViewIsLastMessages | client/client.py:49-55 | After any run, the client holds the id of the last handled `welcome` and the players of the last handled `state`, or its earlier values where there is none. |
| Session.IdentityComesFromWelcome | client/client.py:52-53 | A client that holds an identity was sent a `welcome` carrying exactly that id. |
| Session.HaltsIffFatalLine | client/client.py:51-57 | The loop is torn down if and only if one of the lines is fatal. |
| Session.WelcomeThenState | client/client.py:41-55 | One read carrying `welcome` with id "A" and then a `state` leaves identity "A" and exactly that `state`'s players, with the loop still waiting. |
| Session.MalformedThenState | client/client.py:49-57 | One read carrying a malformed line and then a valid `state` tears the loop down, and the client stays as it started. |
| Session.ReceivedIsFeedChunks | client/client.py:45-50 | The lines the loop extracts from a stream are those of framing the delivered reads one by one, so the framing lemmas about reads apply to the loop. |
| Session.ReceiveIgnoresChunking | client/client.py:45-57 | Two cuttings of the same bytes into reads, neither with an empty read, leave the same client and end the same way. |
| Session.Client.constructor | client/client.py:31-34 | A new client has an empty player list, no identity, and is running. |
| Session.Client.Stop | client/client.py:118 | Clearing the running flag changes nothing else. |
| Session.Client.RecvLoop | client/client.py:41-57 | The loop over the reads leaves the client in the state `Receive` gives for the received stream: the lines of everything read before the first empty read, applied in order until the first fatal one. It ends torn, closed by the peer, or waiting for more. When not running it does nothing. |
| Discovery.Truncated | client/client.py:22 | `recvfrom(1024)` hands over a prefix of the datagram. A datagram that fits is handed over whole, and a longer one is cut to exactly its first 1024 bytes. |
| Discovery.RepliesAppend | client/client.py:19-26 | What two runs of iterations collect is what the first collects followed by what the second collects. |
| Discovery.ReplyInPlace | client/client.py:22-24 | A reply that decodes appears in the result, between everything collected before it and everything collected after it. |
| Discovery.RepliesFromReplies | client/client.py:22-24 | Every collected room is the decoding of a datagram that arrived: nothing is invented. |
| Discovery.NothingDecodedNoRooms | client/client.py:25-28 | Timeouts and undecodable replies alone give an empty result, which is not an error. |
| Discovery.DiscoverRooms | client/client.py:11-28 | Every iteration sends the `DISCOVER_ROOM` probe to port 50001, and the loop collects exactly the decoded replies, in arrival order. A failed `sendto`, which is outside the `try`, ends discovery with an error at the first such iteration. |
| InputCodec.NatTextRoundTrip | client/client.py:60 | The decimal text of a natural number is made of digits, has no leading zero unless the number is 0, and reads back as that number. |
| InputCodec.IntTextRoundTrip | client/client.py:60 | The text `json.dumps` gives an integer is a JSON integer that reads back as it: digits, no leading zero unless the number is 0, and an optional minus sign. It is printable and has no comma. |
| InputCodec.LeadingZeroRefused | client/client.py:60 | Text with a leading zero, signed or not, is not a JSON integer, so the reader refuses it. |
| InputCodec.InputLine | client/client.py:60-62 | The encoded body has one byte per character, equal to the character's code, and no terminator. |
| InputCodec.EncodeInput | client/client.py:60-62 | The message ends in a terminator and has no other one. |
| InputCodec.EncodeInputIsOneLine | client/client.py:60-62 | A peer framing one message gets exactly one line, the encoded body, and nothing left over. |
| InputCodec.InputStreamFrames | client/client.py:59-62 | A peer framing any sequence of messages gets one line per message, in order, and nothing left over. |
| InputCodec.InputRoundTrip | client/client.py:60 | A peer decodes the body of every message back to the `(dx, dy)` it was made from. |
| Controls.KeyDelta | client/client.py:83-92 | Each component is -5, 0 or 5. `dx` is 5 exactly when right is held and -5 exactly when left is held without right. `dy` is 5 exactly when down is held and -5 exactly when up is held without down. |
| Controls.FrameMessageDelivers | client/client.py:83-94 | Each frame's message reaches a peer as a single line, and that line decodes to the frame's delta. |

## Left out

- `Client.connect` (lines 36-39): socket creation, the TCP connect and the
  thread start are I/O. The receive loop is modelled as a method over the
  reads it would get.
- Concurrency: the render loop reads `players` and `id` while the receive
  thread writes them. The flag `running` is cleared by the main thread. The
  model runs the loop to completion, with `running` fixed for that run.
- Session.Client.RecvLoop: when the reads run out, the real loop blocks in
  `recv`. The model returns `Waiting` instead.
- JSON and UTF-8 decoding (`json.loads`, `bytes.decode`) are a library. They
  are a parameter, so JSON numbers, NaN and float details play no part.
- The clock in `discover_rooms` (`time.time()`, the 1.5 s window, the 0.4 s
  receive timeout) is not modelled. The attempts stand for the iterations
  that ran, and a timeout is `NoReply`. The UDP socket options and the
  broadcast address are not modelled either.
- Discovery.Truncated: models the POSIX behaviour of `recvfrom(1024)`, which
  cuts an oversized datagram to 1024 bytes. On Windows the call raises
  instead, and the bare `except` skips the datagram. The model does not
  capture that platform.
- Discovery.DiscoverRooms: the broadcast address is not modelled, only the
  payload and the port of each probe. The reply address `addr` is not modelled, because
  the function drops it.
- The `sendall` call in `send_input`: the model gives the bytes written. A
  failure of `sendall` is swallowed by its `except: pass` and changes no
  state, so it is not modelled.
- The 4096-byte read size: chunks may have any length, and framing does not
  depend on how the stream is cut (`Framing.FramingIgnoresChunking`).
- The pygame main loop (lines 66-117): window, drawing, the sidebar, the
  event queue and `QUIT`, and the auto-join of `rooms[0]["host"]` are UI
  wiring. Only the key mapping and the per-frame `send_input` call are
  modelled.
- InputCodec.DecodeInput is the peer's side: the server is not part of this
  model. The decoder is a reference reader for the exact shape
  `json.dumps` produces, not a general JSON parser.
