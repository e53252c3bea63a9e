/** Base64 as defined in section 4 of RFC 4648, the encoding of Python's
    `base64.b64encode`: the standard alphabet and `=` padding. The decoder
    is the strict one the same section describes (the length is a multiple
    of four, padding only at the end, pad bits zero). */
module Base64 {
  import opened Wrappers
  import opened Bytes

  /** The code of the `=` padding character. */
  const Pad: Byte := 61

  /** The alphabet of section 4, Table 1: `A`-`Z`, `a`-`z`, `0`-`9`, `+`, `/`. */
  function Letter(v: nat): (x: Byte)
    requires v < 64
    ensures IsAscii(x) && x != Pad
  {
    if v < 26 then 65 + v
    else if v < 52 then 97 + (v - 26)
    else if v < 62 then 48 + (v - 52)
    else if v == 62 then 43
    else 47
  }

  /** The value of an alphabet character, `None` for any other byte. */
  function ValueOf(x: Byte): (r: Option<nat>)
    ensures r.Some? ==> r.value < 64 && Letter(r.value) == x
  {
    if 65 <= x <= 90 then Some(x - 65)
    else if 97 <= x <= 122 then Some(x - 97 + 26)
    else if 48 <= x <= 57 then Some(x - 48 + 52)
    else if x == 43 then Some(62)
    else if x == 47 then Some(63)
    else None
  }

  predicate InAlphabet(x: Byte) {
    ValueOf(x).Some?
  }

  lemma ValueOfLetter(v: nat)
    requires v < 64
    ensures ValueOf(Letter(v)) == Some(v)
  {
  }

  /** Three bytes as four characters. */
  function EncodeGroup(b0: Byte, b1: Byte, b2: Byte): seq<Byte> {
    [Letter(b0 / 4), Letter((b0 % 4) * 16 + b1 / 16), Letter((b1 % 16) * 4 + b2 / 64), Letter(b2 % 64)]
  }

  /** `base64.b64encode(b)`. */
  function Encode(b: seq<Byte>): (r: seq<Byte>)
    ensures |r| == 4 * ((|b| + 2) / 3)
    ensures forall i :: 0 <= i < |r| ==> InAlphabet(r[i]) || r[i] == Pad
    ensures forall i :: 0 <= i < |r| ==> IsAscii(r[i])
    decreases |b|
  {
    if |b| == 0 then []
    else if |b| == 1 then [Letter(b[0] / 4), Letter((b[0] % 4) * 16), Pad, Pad]
    else if |b| == 2 then
      [Letter(b[0] / 4), Letter((b[0] % 4) * 16 + b[1] / 16), Letter((b[1] % 16) * 4), Pad]
    else EncodeGroup(b[0], b[1], b[2]) + Encode(b[3..])
  }

  /** Four alphabet characters as three bytes. */
  function DecodeGroup(c0: nat, c1: nat, c2: nat, c3: nat): seq<Byte>
    requires c0 < 64 && c1 < 64 && c2 < 64 && c3 < 64
  {
    [c0 * 4 + c1 / 16, (c1 % 16) * 16 + c2 / 4, (c2 % 4) * 64 + c3]
  }

  /** Four alphabet characters without padding as three bytes. */
  function DecodeQuantum(q: seq<Byte>): (r: Option<seq<Byte>>)
    requires |q| == 4
    ensures r.Some? ==> |r.value| == 3
  {
    if InAlphabet(q[0]) && InAlphabet(q[1]) && InAlphabet(q[2]) && InAlphabet(q[3]) then
      Some(DecodeGroup(ValueOf(q[0]).value, ValueOf(q[1]).value, ValueOf(q[2]).value, ValueOf(q[3]).value))
    else None
  }

  /** The last quantum: three bytes, or one or two bytes followed by padding
      whose unused bits are zero. */
  function DecodeFinal(q: seq<Byte>): Option<seq<Byte>>
    requires |q| == 4
  {
    if !InAlphabet(q[0]) || !InAlphabet(q[1]) then None
    else
      var c0, c1 := ValueOf(q[0]).value, ValueOf(q[1]).value;
      if q[2] == Pad && q[3] == Pad then
        if c1 % 16 == 0 then Some([c0 * 4 + c1 / 16]) else None
      else if InAlphabet(q[2]) && q[3] == Pad then
        var c2 := ValueOf(q[2]).value;
        if c2 % 4 == 0 then Some([c0 * 4 + c1 / 16, (c1 % 16) * 16 + c2 / 4]) else None
      else DecodeQuantum(q)
  }

  /** Decodes `s`, or `None` when it is not the encoding of any byte string. */
  function Decode(s: seq<Byte>): Option<seq<Byte>>
    decreases |s|
  {
    if |s| == 0 then Some([])
    else if |s| < 4 then None
    else if |s| == 4 then DecodeFinal(s)
    else
      match DecodeQuantum(s[..4])
      case None => None
      case Some(group) =>
        match Decode(s[4..])
        case None => None
        case Some(rest) => Some(group + rest)
  }

  /** Splitting three bytes into four sextets and joining them again is the
      identity. */
  lemma SextetsJoin(b0: Byte, b1: Byte, b2: Byte)
    ensures DecodeGroup(b0 / 4, (b0 % 4) * 16 + b1 / 16, (b1 % 16) * 4 + b2 / 64, b2 % 64) == [b0, b1, b2]
  {
    var c1 := (b0 % 4) * 16 + b1 / 16;
    var c2 := (b1 % 16) * 4 + b2 / 64;
    assert c1 / 16 == b0 % 4 && c1 % 16 == b1 / 16;
    assert c2 / 4 == b1 % 16 && c2 % 4 == b2 / 64;
  }

  lemma DecodeEncodeGroup(b0: Byte, b1: Byte, b2: Byte)
    ensures DecodeQuantum(EncodeGroup(b0, b1, b2)) == Some([b0, b1, b2])
  {
    var q := EncodeGroup(b0, b1, b2);
    ValueOfLetter(b0 / 4);
    ValueOfLetter((b0 % 4) * 16 + b1 / 16);
    ValueOfLetter((b1 % 16) * 4 + b2 / 64);
    ValueOfLetter(b2 % 64);
    SextetsJoin(b0, b1, b2);
  }

  lemma DecodeEncodeOne(b0: Byte)
    ensures Decode(Encode([b0])) == Some([b0])
  {
    ValueOfLetter(b0 / 4);
    ValueOfLetter((b0 % 4) * 16);
  }

  lemma DecodeEncodeTwo(b0: Byte, b1: Byte)
    ensures Decode(Encode([b0, b1])) == Some([b0, b1])
  {
    var s := Encode([b0, b1]);
    ValueOfLetter(b0 / 4);
    ValueOfLetter((b0 % 4) * 16 + b1 / 16);
    ValueOfLetter((b1 % 16) * 4);
    var c1 := (b0 % 4) * 16 + b1 / 16;
    assert c1 / 16 == b0 % 4 && c1 % 16 == b1 / 16;
    assert ValueOf(s[3]) == None && s[3] == Pad;
    assert DecodeFinal(s) == Some([b0, b1]);
  }

  /** A final quantum without padding is decoded as a full group. */
  lemma DecodeFinalGroup(b0: Byte, b1: Byte, b2: Byte)
    ensures Decode(EncodeGroup(b0, b1, b2)) == Some([b0, b1, b2])
  {
    var q := EncodeGroup(b0, b1, b2);
    DecodeEncodeGroup(b0, b1, b2);
    assert q[2] != Pad && q[3] != Pad;
    assert Decode(q) == DecodeFinal(q);
  }

  /** Round trip: decoding the encoding gives back the original bytes. */
  lemma {:induction false} DecodeEncode(b: seq<Byte>)
    ensures Decode(Encode(b)) == Some(b)
    decreases |b|
  {
    if |b| == 1 {
      DecodeEncodeLengthOne(b);
    } else if |b| == 2 {
      DecodeEncodeLengthTwo(b);
    } else if |b| == 3 {
      EncodeStep(b);
      DecodeEncodeLast(b[0], b[1], b[2], Encode(b[3..]), b[3..]);
      assert b == [b[0], b[1], b[2]] + b[3..];
    } else if |b| > 3 {
      DecodeEncode(b[3..]);
      EncodeStep(b);
      DecodeEncodeStep(b[0], b[1], b[2], Encode(b[3..]), b[3..]);
      assert b == [b[0], b[1], b[2]] + b[3..];
    }
  }

  lemma DecodeEncodeLengthOne(b: seq<Byte>)
    requires |b| == 1
    ensures Decode(Encode(b)) == Some(b)
  {
    DecodeEncodeOne(b[0]);
    RoundTripTransfer([b[0]], b);
  }

  lemma DecodeEncodeLengthTwo(b: seq<Byte>)
    requires |b| == 2
    ensures Decode(Encode(b)) == Some(b)
  {
    DecodeEncodeTwo(b[0], b[1]);
    RoundTripTransfer([b[0], b[1]], b);
  }

  /** Moves the round trip from one spelling of a byte string to another.
      Proving `b == [b[0], b[1]]` in the same proof obligation as
      `Decode(Encode(b))` makes the verifier unfold both functions over the
      known length and often exhaust its resources; this lemma keeps the
      equality apart from that unfolding. */
  lemma RoundTripTransfer(c: seq<Byte>, b: seq<Byte>)
    requires Decode(Encode(c)) == Some(c) && c == b
    ensures Decode(Encode(b)) == Some(b)
  {
  }

  lemma DecodePrepend(q: seq<Byte>, t: seq<Byte>)
    requires |q| == 4 && |t| > 0 && DecodeQuantum(q).Some? && Decode(t).Some?
    ensures Decode(q + t) == Some(DecodeQuantum(q).value + Decode(t).value)
  {
    var s := q + t;
    assert s[..4] == q && s[4..] == t;
  }

  lemma EncodeStep(b: seq<Byte>)
    requires |b| >= 3
    ensures Encode(b) == EncodeGroup(b[0], b[1], b[2]) + Encode(b[3..])
  {
  }

  /** The last group, with nothing after it. The empty tail and the empty
      result are parameters, rather than written as `[]`, so that the
      caller can use the same shape as in the recursive step
      (`DecodeEncodeStep`) without the verifier unfolding `Encode` on a
      sequence of known length. */
  lemma DecodeEncodeLast(b0: Byte, b1: Byte, b2: Byte, t: seq<Byte>, rest: seq<Byte>)
    requires t == [] && rest == []
    ensures Decode(EncodeGroup(b0, b1, b2) + t) == Some([b0, b1, b2] + rest)
  {
    DecodeFinalGroup(b0, b1, b2);
    assert EncodeGroup(b0, b1, b2) + t == EncodeGroup(b0, b1, b2);
    assert [b0, b1, b2] + rest == [b0, b1, b2];
  }

  lemma DecodeEncodeStep(b0: Byte, b1: Byte, b2: Byte, t: seq<Byte>, rest: seq<Byte>)
    requires |t| > 0 && Decode(t) == Some(rest)
    ensures Decode(EncodeGroup(b0, b1, b2) + t) == Some([b0, b1, b2] + rest)
  {
    DecodeEncodeGroup(b0, b1, b2);
    DecodePrepend(EncodeGroup(b0, b1, b2), t);
  }

  /** The encoding is injective: distinct byte strings give distinct text. */
  lemma EncodeInjective(a: seq<Byte>, b: seq<Byte>)
    requires Encode(a) == Encode(b)
    ensures a == b
  {
    DecodeEncode(a);
    DecodeEncode(b);
  }
}
