/**
 * The outbound input message of `Client.send_input` in client/client.py:
 * `json.dumps({"dx": dx, "dy": dy}) + "\n"`, UTF-8 encoded. With the default
 * separators `json.dumps` writes `{"dx": <dx>, "dy": <dy>}`, each integer in
 * decimal.
 */
module InputCodec {
  import opened Wire
  import opened Framing

  /** Characters from the space to the tilde: ASCII, and never a line terminator. */
  predicate Printable(s: string) {
    forall i :: 0 <= i < |s| ==> 32 <= s[i] as int < 127
  }

  lemma PrintableAppend(a: string, b: string)
    requires Printable(a) && Printable(b)
    ensures Printable(a + b)
  {
    forall i | 0 <= i < |a + b| ensures 32 <= (a + b)[i] as int < 127 {
      if i >= |a| { assert (a + b)[i] == b[i - |a|]; }
    }
  }

  function DigitChar(d: nat): (c: char)
    requires d < 10
    ensures '0' <= c <= '9' && c as int - '0' as int == d
  {
    ('0' as int + d) as char
  }

  /** The decimal text of a natural number, most significant digit first. */
  function NatText(n: nat): string
    decreases n
  {
    if n < 10 then [DigitChar(n)] else NatText(n / 10) + [DigitChar(n % 10)]
  }

  /** The decimal text of an integer, as `json.dumps` writes it: a minus sign for negatives. */
  function IntText(n: int): string {
    if n < 0 then "-" + NatText(-n) else NatText(n)
  }

  predicate IsDigits(s: string) {
    |s| > 0 && forall i :: 0 <= i < |s| ==> '0' <= s[i] <= '9'
  }

  /** The value of a string of decimal digits. */
  function DigitsValue(s: string): nat
    requires forall i :: 0 <= i < |s| ==> '0' <= s[i] <= '9'
    decreases |s|
  {
    if s == [] then 0 else DigitsValue(s[..|s| - 1]) * 10 + (s[|s| - 1] as int - '0' as int)
  }

  /** The digits of a JSON integer: no leading zero unless the number is zero itself. */
  predicate IsJsonDigits(s: string) {
    IsDigits(s) && (|s| == 1 || s[0] != '0')
  }

  /** A JSON integer: JSON digits, optionally after a minus sign. */
  predicate IsIntText(s: string) {
    IsJsonDigits(s) || (|s| > 1 && s[0] == '-' && IsJsonDigits(s[1..]))
  }

  function IntValue(s: string): int
    requires IsIntText(s)
  {
    var magnitude: int := if s[0] == '-' then DigitsValue(s[1..]) else DigitsValue(s);
    if s[0] == '-' then -magnitude else magnitude
  }

  /** The text of a positive number does not start with a zero. */
  lemma {:induction false} NatTextNoLeadingZero(n: nat)
    requires n > 0
    ensures NatText(n)[0] != '0'
    decreases n
  {
    if n >= 10 {
      NatTextNoLeadingZero(n / 10);
      assert NatText(n)[0] == NatText(n / 10)[0];
    }
  }

  /** Decimal text is a JSON integer's digits and reads back as the number it was written from. */
  lemma {:induction false} NatTextRoundTrip(n: nat)
    ensures IsJsonDigits(NatText(n)) && DigitsValue(NatText(n)) == n
    decreases n
  {
    if n >= 10 {
      NatTextRoundTrip(n / 10);
      NatTextNoLeadingZero(n);
      var s := NatText(n);
      assert s[..|s| - 1] == NatText(n / 10);
    }
  }

  lemma IntTextRoundTrip(n: int)
    ensures IsIntText(IntText(n)) && IntValue(IntText(n)) == n
    ensures Printable(IntText(n)) && ',' !in IntText(n)
  {
    var m := if n < 0 then -n else n;
    NatTextRoundTrip(m);
    var s := IntText(n);
    if n < 0 {
      assert s[1..] == NatText(m);
    }
  }

  const Prefix: string := "{\"dx\": "
  const Middle: string := ", \"dy\": "
  const Suffix: string := "}"

  /** `json.dumps({"dx": dx, "dy": dy})`. */
  function InputBody(dx: int, dy: int): string {
    Prefix + IntText(dx) + Middle + IntText(dy) + Suffix
  }

  lemma InputBodyPrintable(dx: int, dy: int)
    ensures Printable(InputBody(dx, dy))
  {
    IntTextRoundTrip(dx);
    IntTextRoundTrip(dy);
    PrintableAppend(Prefix, IntText(dx));
    PrintableAppend(Prefix + IntText(dx), Middle);
    PrintableAppend(Prefix + IntText(dx) + Middle, IntText(dy));
    PrintableAppend(Prefix + IntText(dx) + Middle + IntText(dy), Suffix);
  }

  /** The body of one input message, UTF-8 encoded: since it is ASCII, one byte per character. */
  function InputLine(dx: int, dy: int): (r: seq<byte>)
    ensures |r| == |InputBody(dx, dy)|
    ensures forall i :: 0 <= i < |r| ==> r[i] as int == InputBody(dx, dy)[i] as int
    ensures NL !in r
  {
    InputBodyPrintable(dx, dy);
    Ascii(InputBody(dx, dy))
  }

  /**
   * The bytes one `send_input(dx, dy)` writes: the message ends in the one
   * terminator, and there is no other terminator in it.
   */
  function EncodeInput(dx: int, dy: int): (r: seq<byte>)
    ensures |r| > 0 && r[|r| - 1] == NL
    ensures forall i :: 0 <= i < |r| - 1 ==> r[i] != NL
  {
    InputLine(dx, dy) + [NL]
  }

  /** The line a peer frames out of one encoded input: the encoded body, and nothing is left over. */
  lemma EncodeInputIsOneLine(dx: int, dy: int)
    ensures SplitLines(EncodeInput(dx, dy)) == Framed([InputLine(dx, dy)], [])
  {
    var f := Framed([InputLine(dx, dy)], []);
    JoinCons(InputLine(dx, dy), []);
    assert Join(f.lines) + f.rest == EncodeInput(dx, dy);
    SplitJoin(f);
  }

  /** The bytes of several `send_input` calls, one after another. */
  function InputStream(inputs: seq<(int, int)>): seq<byte>
    decreases |inputs|
  {
    if inputs == [] then [] else EncodeInput(inputs[0].0, inputs[0].1) + InputStream(inputs[1..])
  }

  /** The body of each input, as the peer's framing returns it. */
  function InputLines(inputs: seq<(int, int)>): (r: seq<seq<byte>>)
    ensures |r| == |inputs|
    decreases |inputs|
  {
    if inputs == [] then []
    else [InputLine(inputs[0].0, inputs[0].1)] + InputLines(inputs[1..])
  }

  lemma {:induction false} InputStreamJoins(inputs: seq<(int, int)>)
    ensures Join(InputLines(inputs)) == InputStream(inputs)
    ensures forall k :: 0 <= k < |inputs| ==> NL !in InputLines(inputs)[k]
    decreases |inputs|
  {
    if inputs != [] {
      var dx, dy := inputs[0].0, inputs[0].1;
      InputStreamJoins(inputs[1..]);
      var lines := InputLines(inputs);
      JoinCons(lines[0], InputLines(inputs[1..]));
      assert lines[1..] == InputLines(inputs[1..]);
      forall k | 0 <= k < |inputs| ensures NL !in lines[k] {
        if k > 0 { assert lines[k] == InputLines(inputs[1..])[k - 1]; }
      }
    }
  }

  /**
   * Successive inputs frame as one line each on the peer, in order, with
   * nothing left over in its buffer.
   */
  lemma InputStreamFrames(inputs: seq<(int, int)>)
    ensures SplitLines(InputStream(inputs)) == Framed(InputLines(inputs), [])
  {
    InputStreamJoins(inputs);
    assert InputStream(inputs) == Join(InputLines(inputs)) + [];
    SplitJoin(Framed(InputLines(inputs), []));
  }

  /**
   * What a conforming peer reads from one input line (after UTF-8 decoding):
   * the pair, when the line has the shape `json.dumps` gives it.
   */
  function DecodeInput(s: string): Option<(int, int)> {
    if |s| < |Prefix| + |Suffix| || s[..|Prefix|] != Prefix || s[|s| - 1] != '}' then None
    else
      var inner := s[|Prefix|..|s| - 1];
      match IndexOf(inner, ',')
      case None => None
      case Some(i) =>
        var a, rest := inner[..i], inner[i..];
        if |rest| < |Middle| || rest[..|Middle|] != Middle then None
        else
          var b := rest[|Middle|..];
          if IsIntText(a) && IsIntText(b) then Some((IntValue(a), IntValue(b))) else None
  }

  /** A number written with a leading zero is not a JSON integer, so the reader refuses it. */
  lemma LeadingZeroRefused(s: string)
    requires |s| > 1 && s[0] == '0'
    ensures !IsIntText(s) && !IsIntText("-" + s)
  {
    assert ("-" + s)[1..] == s;
  }

  /** The slices of a five-part concatenation that give back its outer parts and its middle. */
  lemma Parts(p: string, a: string, m: string, b: string, x: string)
    requires |x| == 1
    ensures var s := p + a + m + b + x;
      s[..|p|] == p && s[|s| - 1] == x[0] && s[|p|..|s| - 1] == a + (m + b)
  {
    var s := p + a + m + b + x;
    assert s == p + (a + (m + b)) + x;
  }

  lemma BodyParts(dx: int, dy: int)
    ensures var s := InputBody(dx, dy);
      |s| >= |Prefix| + |Suffix| && s[..|Prefix|] == Prefix && s[|s| - 1] == '}' &&
      s[|Prefix|..|s| - 1] == IntText(dx) + (Middle + IntText(dy))
  {
    Parts(Prefix, IntText(dx), Middle, IntText(dy), Suffix);
  }

  lemma InnerSplits(a: string, b: string)
    requires ',' !in a
    ensures IndexOf(a + (Middle + b), ',') == Some(|a|)
    ensures (a + (Middle + b))[..|a|] == a
    ensures (a + (Middle + b))[|a|..] == Middle + b
  {
    IndexOfAfter(a, Middle + b, ',');
  }

  /** A peer decodes every encoded input back to the pair it was made from. */
  lemma InputRoundTrip(dx: int, dy: int)
    ensures DecodeInput(InputBody(dx, dy)) == Some((dx, dy))
  {
    BodyParts(dx, dy);
    IntTextRoundTrip(dx);
    IntTextRoundTrip(dy);
    InnerSplits(IntText(dx), IntText(dy));
    assert (Middle + IntText(dy))[..|Middle|] == Middle;
    assert (Middle + IntText(dy))[|Middle|..] == IntText(dy);
  }
}
