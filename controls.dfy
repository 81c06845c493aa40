/**
 * The per-frame movement input of the main loop in client/client.py: the delta
 * starts at zero and each pressed arrow key overwrites one component, left
 * before right and up before down.
 */
module Controls {
  import opened Wire
  import opened Framing
  import opened InputCodec

  /** Pixels moved per frame along one axis. */
  const Speed: int := 5

  /** Which arrow keys are held down in this frame. */
  datatype Keys = Keys(left: bool, right: bool, up: bool, down: bool)

  /** The delta sent for one frame: the later assignment wins when both keys of an axis are held. */
  function KeyDelta(k: Keys): (d: (int, int))
    ensures d.0 in {-Speed, 0, Speed} && d.1 in {-Speed, 0, Speed}
    ensures (d.0 == Speed <==> k.right) && (d.0 == -Speed <==> k.left && !k.right)
    ensures (d.1 == Speed <==> k.down) && (d.1 == -Speed <==> k.up && !k.down)
  {
    var dx0, dy0 := 0, 0;
    var dx1 := if k.left then -Speed else dx0;
    var dx2 := if k.right then Speed else dx1;
    var dy1 := if k.up then -Speed else dy0;
    var dy2 := if k.down then Speed else dy1;
    (dx2, dy2)
  }

  /** The bytes sent for one frame. */
  function FrameMessage(k: Keys): seq<byte> {
    EncodeInput(KeyDelta(k).0, KeyDelta(k).1)
  }

  /**
   * Every frame's message is one line on the peer, and that line decodes to
   * the frame's delta.
   */
  lemma FrameMessageDelivers(k: Keys)
    ensures SplitLines(FrameMessage(k)).rest == []
    ensures |SplitLines(FrameMessage(k)).lines| == 1
    ensures SplitLines(FrameMessage(k)).lines[0] == InputLine(KeyDelta(k).0, KeyDelta(k).1)
    ensures DecodeInput(InputBody(KeyDelta(k).0, KeyDelta(k).1)) == Some(KeyDelta(k))
  {
    EncodeInputIsOneLine(KeyDelta(k).0, KeyDelta(k).1);
    InputRoundTrip(KeyDelta(k).0, KeyDelta(k).1);
  }
}
