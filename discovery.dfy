/**
 * Room discovery (`discover_rooms` in client/client.py): every iteration
 * broadcasts a probe and waits briefly for one reply; decoded replies are
 * collected in arrival order and failed or malformed receives are skipped.
 */
module Discovery {
  import opened Wire
  import opened Json

  /** The UDP port probes are broadcast to. */
  const DiscoveryPort: nat := 50001

  /** `recvfrom(1024)`: a longer datagram is cut to its first 1024 bytes. */
  const MaxDatagram: nat := 1024

  /** The probe payload, the ASCII bytes of `DISCOVER_ROOM`. */
  const Probe: seq<byte> := [68, 73, 83, 67, 79, 86, 69, 82, 95, 82, 79, 79, 77]

  /**
   * What one iteration of the loop meets. The deadline is not modelled: the
   * sequence of attempts is the iterations that ran before it passed.
   */
  datatype Attempt =
    | SendFailed              // `sendto` raised; it is outside the `try`, so the exception leaves the function
    | NoReply                 // `recvfrom` timed out or raised
    | Reply(data: seq<byte>)  // a datagram arrived

  /** A datagram sent: its payload and the destination port. */
  datatype Datagram = Datagram(payload: seq<byte>, port: nat)

  /** The probe as sent: `DISCOVER_ROOM` to the discovery port. */
  const ProbeDatagram: Datagram := Datagram(Probe, DiscoveryPort)

  /** What `discover_rooms` ends with: the collected replies, or the exception from `sendto`. */
  datatype Outcome = Found(rooms: seq<Value>) | SendError

  /** The bytes `recvfrom(1024)` hands over for a datagram: its first 1024 bytes. */
  function Truncated(data: seq<byte>): (r: seq<byte>)
    ensures |r| <= MaxDatagram && |r| <= |data|
    ensures r == data[..|r|]
    ensures |data| <= MaxDatagram ==> r == data
    ensures |data| > MaxDatagram ==> |r| == MaxDatagram
  {
    if |data| <= MaxDatagram then data else data[..MaxDatagram]
  }

  /** What one attempt adds to the result: the decoded reply, or nothing. */
  function Gain(a: Attempt, decode: seq<byte> -> Decoded): seq<Value> {
    match a
    case Reply(data) =>
      (match decode(Truncated(data)) case Parsed(v) => [v] case Malformed => [])
    case _ => []
  }

  /** The replies gathered over a run of attempts, in the order they arrived. */
  function Replies(attempts: seq<Attempt>, decode: seq<byte> -> Decoded): seq<Value>
    decreases |attempts|
  {
    if attempts == [] then [] else Gain(attempts[0], decode) + Replies(attempts[1..], decode)
  }

  /** Collecting over two runs is collecting over the first, then the second. */
  lemma {:induction false} RepliesAppend(a: seq<Attempt>, b: seq<Attempt>, decode: seq<byte> -> Decoded)
    ensures Replies(a + b, decode) == Replies(a, decode) + Replies(b, decode)
    decreases |a|
  {
    if a == [] {
      assert a + b == b;
    } else {
      assert (a + b)[0] == a[0];
      assert (a + b)[1..] == a[1..] + b;
      RepliesAppend(a[1..], b, decode);
    }
  }

  lemma RepliesAround(attempts: seq<Attempt>, before: seq<Attempt>, a: Attempt, after: seq<Attempt>,
                      decode: seq<byte> -> Decoded)
    requires attempts == before + ([a] + after)
    ensures Replies(attempts, decode) == Replies(before, decode) + (Gain(a, decode) + Replies(after, decode))
  {
    RepliesAppend(before, [a] + after, decode);
    assert ([a] + after)[0] == a && ([a] + after)[1..] == after;
  }

  /**
   * A reply that decodes sits in the result exactly between the replies
   * that arrived before it and those that arrived after it.
   */
  lemma ReplyInPlace(attempts: seq<Attempt>, j: nat, decode: seq<byte> -> Decoded)
    requires j < |attempts| && attempts[j].Reply?
    requires decode(Truncated(attempts[j].data)).Parsed?
    ensures Replies(attempts, decode) ==
      Replies(attempts[..j], decode) + [decode(Truncated(attempts[j].data)).value] + Replies(attempts[j + 1..], decode)
  {
    SplitAround(attempts, j);
    RepliesAround(attempts, attempts[..j], attempts[j], attempts[j + 1..], decode);
  }

  /** Every collected room is the decoding of some reply: nothing is invented. */
  lemma {:induction false} RepliesFromReplies(attempts: seq<Attempt>, decode: seq<byte> -> Decoded, k: nat)
    requires k < |Replies(attempts, decode)|
    ensures exists j :: (0 <= j < |attempts| && attempts[j].Reply? &&
      decode(Truncated(attempts[j].data)) == Parsed(Replies(attempts, decode)[k]))
    decreases |attempts|
  {
    var g := Gain(attempts[0], decode);
    var r := Replies(attempts, decode);
    if k >= |g| {
      RepliesFromReplies(attempts[1..], decode, k - |g|);
      var j :| 0 <= j < |attempts[1..]| && attempts[1..][j].Reply? &&
        decode(Truncated(attempts[1..][j].data)) == Parsed(Replies(attempts[1..], decode)[k - |g|]);
      assert attempts[j + 1] == attempts[1..][j];
      assert r[k] == Replies(attempts[1..], decode)[k - |g|];
    }
  }

  /** Attempts that bring no decodable reply (timeouts, malformed datagrams) leave an empty result. */
  lemma {:induction false} NothingDecodedNoRooms(attempts: seq<Attempt>, decode: seq<byte> -> Decoded)
    requires forall j :: 0 <= j < |attempts| ==>
      !(attempts[j].Reply? && decode(Truncated(attempts[j].data)).Parsed?)
    ensures Replies(attempts, decode) == []
    decreases |attempts|
  {
    if attempts != [] {
      assert !(attempts[0].Reply? && decode(Truncated(attempts[0].data)).Parsed?);
      forall j | 0 <= j < |attempts[1..]|
        ensures !(attempts[1..][j].Reply? && decode(Truncated(attempts[1..][j].data)).Parsed?)
      {
        assert attempts[1..][j] == attempts[j + 1];
      }
      NothingDecodedNoRooms(attempts[1..], decode);
    }
  }

  /** One more iteration adds what its attempt gains. */
  lemma RepliesStep(attempts: seq<Attempt>, i: nat, decode: seq<byte> -> Decoded)
    requires i < |attempts|
    ensures Replies(attempts[..i + 1], decode) == Replies(attempts[..i], decode) + Gain(attempts[i], decode)
  {
    RepliesAppend(attempts[..i], [attempts[i]], decode);
    assert attempts[..i + 1] == attempts[..i] + [attempts[i]];
  }

  /**
   * `discover_rooms` over the iterations that ran: a probe goes out on every
   * iteration, and the replies that decode are appended in arrival order.
   */
  method DiscoverRooms(attempts: seq<Attempt>, decode: seq<byte> -> Decoded) returns (result: Outcome, probes: seq<Datagram>)
    ensures result == if SendFailed in attempts then SendError else Found(Replies(attempts, decode))
    ensures forall j :: 0 <= j < |probes| ==> probes[j] == ProbeDatagram
    ensures result.Found? ==> |probes| == |attempts|
    ensures result.SendError? ==>
      |probes| < |attempts| && attempts[|probes|] == SendFailed && SendFailed !in attempts[..|probes|]
  {
    var found: seq<Value> := [];
    probes := [];
    var i := 0;
    while i < |attempts|
      invariant 0 <= i <= |attempts|
      invariant SendFailed !in attempts[..i]
      invariant found == Replies(attempts[..i], decode)
      invariant |probes| == i && forall j :: 0 <= j < i ==> probes[j] == ProbeDatagram
    {
      var a := attempts[i];
      if a == SendFailed {
        assert attempts[i] in attempts;
        return SendError, probes;
      }
      probes := probes + [ProbeDatagram];
      match a {
        case Reply(data) =>
          var d := decode(Truncated(data));
          if d.Parsed? {
            found := found + [d.value];
          }
        case NoReply =>
      }
      RepliesStep(attempts, i, decode);
      i := i + 1;
    }
    assert attempts[..i] == attempts;
    return Found(found), probes;
  }
}
