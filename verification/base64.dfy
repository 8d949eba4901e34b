/** Base64 with the standard alphabet and `=` padding (section 4 of RFC 4648): what
    Node's `Buffer.toString('base64')` produces for the font bytes inlined into a rule. */
module Base64 {
  import opened Wrappers

  type byte = x: int | 0 <= x < 256

  /** A six-bit value, the unit one encoded character carries. */
  type sextet = x: int | 0 <= x < 64

  /** The character for a six-bit value: A-Z, a-z, 0-9, '+', '/'. */
  function SextetChar(i: sextet): char {
    if i < 26 then ('A' as int + i) as char
    else if i < 52 then ('a' as int + (i - 26)) as char
    else if i < 62 then ('0' as int + (i - 52)) as char
    else if i == 62 then '+'
    else '/'
  }

  predicate IsAlphabetChar(c: char) {
    ('A' <= c <= 'Z') || ('a' <= c <= 'z') || ('0' <= c <= '9') || c == '+' || c == '/'
  }

  /** The six-bit value a character of the alphabet stands for. */
  function CharSextet(c: char): (i: sextet)
    requires IsAlphabetChar(c)
    ensures SextetChar(i) == c
  {
    if 'A' <= c <= 'Z' then c as int - 'A' as int
    else if 'a' <= c <= 'z' then c as int - 'a' as int + 26
    else if '0' <= c <= '9' then c as int - '0' as int + 52
    else if c == '+' then 62
    else 63
  }

  lemma SextetCharInverse(i: sextet)
    ensures IsAlphabetChar(SextetChar(i)) && CharSextet(SextetChar(i)) == i
  {
  }

  /** Three bytes as four characters: each character carries the next six bits. */
  function EncodeTriple(b0: byte, b1: byte, b2: byte): string {
    [SextetChar(b0 / 4), SextetChar((b0 % 4) * 16 + b1 / 16),
     SextetChar((b1 % 16) * 4 + b2 / 64), SextetChar(b2 % 64)]
  }

  /** A final two bytes: three characters, the last padded with zero bits, then one '='. */
  function EncodePair(b0: byte, b1: byte): string {
    [SextetChar(b0 / 4), SextetChar((b0 % 4) * 16 + b1 / 16), SextetChar((b1 % 16) * 4), '=']
  }

  /** A final single byte: two characters, the second padded with zero bits, then "==". */
  function EncodeSingle(b0: byte): string {
    [SextetChar(b0 / 4), SextetChar((b0 % 4) * 16), '=', '=']
  }

  /** Every character is of the alphabet or is padding. */
  predicate IsEncodedText(s: string) {
    forall i :: 0 <= i < |s| ==> IsAlphabetChar(s[i]) || s[i] == '='
  }

  /** Encoded text holds neither a comma nor a line feed. */
  lemma EncodedTextPlain(s: string)
    requires IsEncodedText(s)
    ensures ',' !in s && '\n' !in s
  {
    forall i | 0 <= i < |s|
      ensures s[i] != ',' && s[i] != '\n'
    {
    }
  }

  lemma GroupIsEncodedText(i0: sextet, i1: sextet, c2: char, c3: char)
    requires IsAlphabetChar(c2) || c2 == '='
    requires IsAlphabetChar(c3) || c3 == '='
    ensures IsEncodedText([SextetChar(i0), SextetChar(i1), c2, c3])
  {
    SextetCharInverse(i0);
    SextetCharInverse(i1);
  }

  lemma EncodedTextConcat(a: string, b: string)
    requires IsEncodedText(a) && IsEncodedText(b)
    ensures IsEncodedText(a + b)
  {
    assert forall i :: 0 <= i < |a + b| ==> (a + b)[i] == if i < |a| then a[i] else b[i - |a|];
  }

  function Encode(bs: seq<byte>): (s: string)
    ensures |s| == (|bs| + 2) / 3 * 4
    ensures IsEncodedText(s)
    decreases |bs|
  {
    if |bs| == 0 then ""
    else if |bs| == 1 then
      GroupIsEncodedText(bs[0] / 4, (bs[0] % 4) * 16, '=', '=');
      EncodeSingle(bs[0])
    else if |bs| == 2 then
      var i2 := (bs[1] % 16) * 4;
      SextetCharInverse(i2);
      GroupIsEncodedText(bs[0] / 4, (bs[0] % 4) * 16 + bs[1] / 16, SextetChar(i2), '=');
      EncodePair(bs[0], bs[1])
    else
      var i2, i3 := (bs[1] % 16) * 4 + bs[2] / 64, bs[2] % 64;
      SextetCharInverse(i2);
      SextetCharInverse(i3);
      GroupIsEncodedText(bs[0] / 4, (bs[0] % 4) * 16 + bs[1] / 16, SextetChar(i2), SextetChar(i3));
      EncodedTextConcat(EncodeTriple(bs[0], bs[1], bs[2]), Encode(bs[3..]));
      EncodeTriple(bs[0], bs[1], bs[2]) + Encode(bs[3..])
  }

  function DecodeQuad(q: string): (r: Option<seq<byte>>)
    requires |q| == 4
    requires IsAlphabetChar(q[0]) && IsAlphabetChar(q[1]) && IsAlphabetChar(q[2]) && IsAlphabetChar(q[3])
  {
    var i0, i1, i2, i3 := CharSextet(q[0]), CharSextet(q[1]), CharSextet(q[2]), CharSextet(q[3]);
    Some([i0 * 4 + i1 / 16, (i1 % 16) * 16 + i2 / 4, (i2 % 4) * 64 + i3])
  }

  /** The last group of four characters, which may end in one or two '='. The bits a padded
      group leaves over must be zero, as the encoder writes them (section 3.5 of RFC 4648),
      so every byte sequence has exactly one encoding that decodes. */
  function DecodeFinal(q: string): (r: Option<seq<byte>>)
    requires |q| == 4
  {
    if !IsAlphabetChar(q[0]) || !IsAlphabetChar(q[1]) then None
    else
      var i0, i1 := CharSextet(q[0]), CharSextet(q[1]);
      if q[2] == '=' && q[3] == '=' then
        if i1 % 16 == 0 then Some([i0 * 4 + i1 / 16]) else None
      else if !IsAlphabetChar(q[2]) then None
      else
        var i2 := CharSextet(q[2]);
        if q[3] == '=' then
          if i2 % 4 == 0 then Some([i0 * 4 + i1 / 16, (i1 % 16) * 16 + i2 / 4]) else None
        else if IsAlphabetChar(q[3]) then DecodeQuad(q)
        else None
  }

  /** Decodes padded Base64; None when `s` is not a sequence of four-character groups
      of the alphabet with padding only at the end, or when the final group's spare bits
      are not zero. */
  function Decode(s: string): (r: Option<seq<byte>>)
    decreases |s|
  {
    if |s| == 0 then Some([])
    else if |s| < 4 then None
    else if |s| == 4 then DecodeFinal(s)
    else if !(IsAlphabetChar(s[0]) && IsAlphabetChar(s[1]) && IsAlphabetChar(s[2]) && IsAlphabetChar(s[3])) then None
    else
      match Decode(s[4..])
      case None => None
      case Some(rest) => Some(DecodeQuad(s[..4]).value + rest)
  }

  /** Four characters of the alphabet decode to the 24 bits their values carry. */
  lemma DecodeQuadOf(q: string, i0: sextet, i1: sextet, i2: sextet, i3: sextet)
    requires q == [SextetChar(i0), SextetChar(i1), SextetChar(i2), SextetChar(i3)]
    ensures IsAlphabetChar(q[0]) && IsAlphabetChar(q[1]) && IsAlphabetChar(q[2]) && IsAlphabetChar(q[3])
    ensures DecodeQuad(q) == Some([i0 * 4 + i1 / 16, (i1 % 16) * 16 + i2 / 4, (i2 % 4) * 64 + i3])
  {
    SextetCharInverse(i0);
    SextetCharInverse(i1);
    SextetCharInverse(i2);
    SextetCharInverse(i3);
  }

  /** Cutting three bytes into four six-bit values and joining them again. */
  lemma TripleBits(b0: byte, b1: byte, b2: byte, i0: int, i1: int, i2: int, i3: int)
    requires i0 == b0 / 4 && i1 == (b0 % 4) * 16 + b1 / 16 && i2 == (b1 % 16) * 4 + b2 / 64 && i3 == b2 % 64
    ensures 0 <= i0 < 64 && 0 <= i1 < 64 && 0 <= i2 < 64 && 0 <= i3 < 64
    ensures i0 * 4 + i1 / 16 == b0 && (i1 % 16) * 16 + i2 / 4 == b1 && (i2 % 4) * 64 + i3 == b2
  {
    assert i1 / 16 == b0 % 4 && i1 % 16 == b1 / 16;
    assert i2 / 4 == b1 % 16 && i2 % 4 == b2 / 64;
  }

  lemma TripleRoundTrip(b0: byte, b1: byte, b2: byte)
    ensures var q := EncodeTriple(b0, b1, b2);
      IsAlphabetChar(q[0]) && IsAlphabetChar(q[1]) && IsAlphabetChar(q[2]) && IsAlphabetChar(q[3])
      && DecodeQuad(q) == Some([b0, b1, b2])
  {
    var i0, i1, i2, i3 := b0 / 4, (b0 % 4) * 16 + b1 / 16, (b1 % 16) * 4 + b2 / 64, b2 % 64;
    TripleBits(b0, b1, b2, i0, i1, i2, i3);
    var q := EncodeTriple(b0, b1, b2);
    assert q == [SextetChar(i0), SextetChar(i1), SextetChar(i2), SextetChar(i3)];
    QuadRoundTrip(q, i0, i1, i2, i3, b0, b1, b2);
  }

  lemma QuadRoundTrip(q: string, i0: sextet, i1: sextet, i2: sextet, i3: sextet, b0: byte, b1: byte, b2: byte)
    requires q == [SextetChar(i0), SextetChar(i1), SextetChar(i2), SextetChar(i3)]
    requires i0 * 4 + i1 / 16 == b0 && (i1 % 16) * 16 + i2 / 4 == b1 && (i2 % 4) * 64 + i3 == b2
    ensures IsAlphabetChar(q[0]) && IsAlphabetChar(q[1]) && IsAlphabetChar(q[2]) && IsAlphabetChar(q[3])
    ensures DecodeQuad(q) == Some([b0, b1, b2])
  {
    DecodeQuadOf(q, i0, i1, i2, i3);
  }

  lemma PairBits(b0: byte, b1: byte)
    ensures var i0, i1, i2 := b0 / 4, (b0 % 4) * 16 + b1 / 16, (b1 % 16) * 4;
      && i0 * 4 + i1 / 16 == b0 && (i1 % 16) * 16 + i2 / 4 == b1
  {
    var i1, i2 := (b0 % 4) * 16 + b1 / 16, (b1 % 16) * 4;
    assert i1 / 16 == b0 % 4 && i1 % 16 == b1 / 16;
    assert i2 / 4 == b1 % 16;
  }

  lemma PairRoundTrip(b0: byte, b1: byte)
    ensures DecodeFinal(EncodePair(b0, b1)) == Some([b0, b1])
  {
    var i0, i1, i2 := b0 / 4, (b0 % 4) * 16 + b1 / 16, (b1 % 16) * 4;
    PairBits(b0, b1);
    SextetCharInverse(i0);
    SextetCharInverse(i1);
    SextetCharInverse(i2);
  }

  lemma SingleRoundTrip(b0: byte)
    ensures DecodeFinal(EncodeSingle(b0)) == Some([b0])
  {
    var i0, i1 := b0 / 4, (b0 % 4) * 16;
    SextetCharInverse(i0);
    SextetCharInverse(i1);
    assert i1 / 16 == b0 % 4;
  }

  lemma DecodeFour(s: string)
    requires |s| == 4
    ensures Decode(s) == DecodeFinal(s)
  {
  }

  lemma DecodeEncodeSingle(bs: seq<byte>)
    requires |bs| == 1
    ensures Decode(Encode(bs)) == Some(bs)
  {
    var s := EncodeSingle(bs[0]);
    assert Encode(bs) == s;
    DecodeFour(s);
    SingleRoundTrip(bs[0]);
    assert bs == [bs[0]];
  }

  lemma DecodeEncodePair(bs: seq<byte>)
    requires |bs| == 2
    ensures Decode(Encode(bs)) == Some(bs)
  {
    var s := EncodePair(bs[0], bs[1]);
    assert Encode(bs) == s;
    DecodeFour(s);
    PairRoundTrip(bs[0], bs[1]);
    assert bs == [bs[0], bs[1]];
  }

  /** A full group of four alphabet characters decodes ahead of a non-empty remainder. */
  lemma DecodeFullGroup(q: string, t: string)
    requires |q| == 4 && |t| > 0
    requires IsAlphabetChar(q[0]) && IsAlphabetChar(q[1]) && IsAlphabetChar(q[2]) && IsAlphabetChar(q[3])
    ensures Decode(q + t) == if Decode(t).Some? then Some(DecodeQuad(q).value + Decode(t).value) else None
  {
    var s := q + t;
    assert s[..4] == q && s[4..] == t;
  }

  lemma EncodeLeadingTriple(bs: seq<byte>)
    requires |bs| >= 3
    ensures Encode(bs) == EncodeTriple(bs[0], bs[1], bs[2]) + Encode(bs[3..])
  {
  }

  lemma DecodeEncodeTriple(bs: seq<byte>)
    requires |bs| == 3
    ensures Decode(Encode(bs)) == Some(bs)
  {
    var q := EncodeTriple(bs[0], bs[1], bs[2]);
    EncodeLeadingTriple(bs);
    assert Encode(bs) == q;
    TripleRoundTrip(bs[0], bs[1], bs[2]);
    DecodeFour(q);
    assert bs == [bs[0], bs[1], bs[2]];
  }

  lemma SplitLeadingTriple(bs: seq<byte>)
    requires |bs| >= 3
    ensures bs == [bs[0], bs[1], bs[2]] + bs[3..]
  {
  }

  /** One step of the induction: a leading triple decodes ahead of whatever the rest decodes to. */
  lemma DecodeEncodeStep(bs: seq<byte>)
    requires |bs| > 3
    requires Decode(Encode(bs[3..])) == Some(bs[3..])
    ensures Decode(Encode(bs)) == Some(bs)
  {
    var q := EncodeTriple(bs[0], bs[1], bs[2]);
    var t := Encode(bs[3..]);

    EncodeLeadingTriple(bs);
    assert |t| > 0;
    TripleRoundTrip(bs[0], bs[1], bs[2]);
    assert IsAlphabetChar(q[0]) && IsAlphabetChar(q[1]) && IsAlphabetChar(q[2]) && IsAlphabetChar(q[3]);
    DecodeFullGroup(q, t);
    SplitLeadingTriple(bs);
  }

  /** Decoding inverts encoding: the payload of a data URI gives back the font's bytes. */
  lemma {:induction false} DecodeEncode(bs: seq<byte>)
    ensures Decode(Encode(bs)) == Some(bs)
    decreases |bs|
  {
    if |bs| == 1 {
      DecodeEncodeSingle(bs);
    } else if |bs| == 2 {
      DecodeEncodePair(bs);
    } else if |bs| == 3 {
      DecodeEncodeTriple(bs);
    } else if |bs| > 3 {
      DecodeEncode(bs[3..]);
      DecodeEncodeStep(bs);
    }
  }

  /** Joining four six-bit values into three bytes and cutting them again. */
  lemma QuadBits(i0: sextet, i1: sextet, i2: sextet, i3: sextet)
    ensures var b0, b1, b2 := i0 * 4 + i1 / 16, (i1 % 16) * 16 + i2 / 4, (i2 % 4) * 64 + i3;
      && b0 / 4 == i0 && (b0 % 4) * 16 + b1 / 16 == i1
      && (b1 % 16) * 4 + b2 / 64 == i2 && b2 % 64 == i3
  {
    var b0, b1, b2 := i0 * 4 + i1 / 16, (i1 % 16) * 16 + i2 / 4, (i2 % 4) * 64 + i3;
    assert b0 / 4 == i0 && b0 % 4 == i1 / 16;
    assert b1 / 16 == i1 % 16 && b1 % 16 == i2 / 4;
    assert b2 / 64 == i2 % 4 && b2 % 64 == i3;
  }

  /** A final "==" group with zero spare bits encodes its one byte. */
  lemma EncodeDecodeSingle(q: string, i0: sextet, i1: sextet)
    requires q == [SextetChar(i0), SextetChar(i1), '=', '='] && i1 % 16 == 0
    ensures q == Encode([i0 * 4 + i1 / 16])
  {
    QuadBits(i0, i1, 0, 0);
    assert i1 / 16 * 16 == i1;
  }

  /** A final "=" group with zero spare bits encodes its two bytes. */
  lemma EncodeDecodePair(q: string, i0: sextet, i1: sextet, i2: sextet)
    requires q == [SextetChar(i0), SextetChar(i1), SextetChar(i2), '='] && i2 % 4 == 0
    ensures q == Encode([i0 * 4 + i1 / 16, (i1 % 16) * 16 + i2 / 4])
  {
    QuadBits(i0, i1, i2, 0);
    assert i2 / 4 * 4 == i2;
  }

  /** A final full group encodes its three bytes. */
  lemma EncodeDecodeTriple(q: string, i0: sextet, i1: sextet, i2: sextet, i3: sextet)
    requires q == [SextetChar(i0), SextetChar(i1), SextetChar(i2), SextetChar(i3)]
    ensures q == Encode([i0 * 4 + i1 / 16, (i1 % 16) * 16 + i2 / 4, (i2 % 4) * 64 + i3])
  {
    var bs := [i0 * 4 + i1 / 16, (i1 % 16) * 16 + i2 / 4, (i2 % 4) * 64 + i3];
    QuadBits(i0, i1, i2, i3);
    EncodeLeadingTriple(bs);
  }

  /** A final group that decodes is the encoding of what it decodes to. */
  lemma EncodeDecodeFinal(q: string, bs: seq<byte>)
    requires |q| == 4 && DecodeFinal(q) == Some(bs)
    ensures q == Encode(bs)
  {
    var i0: int, i1: int := CharSextet(q[0]), CharSextet(q[1]);
    if q[2] == '=' && q[3] == '=' {
      assert q == [SextetChar(i0), SextetChar(i1), '=', '='];
      assert bs == [i0 * 4 + i1 / 16];
      EncodeDecodeSingle(q, i0, i1);
    } else {
      var i2: int := CharSextet(q[2]);
      if q[3] == '=' {
        assert q == [SextetChar(i0), SextetChar(i1), SextetChar(i2), '='];
        assert bs == [i0 * 4 + i1 / 16, (i1 % 16) * 16 + i2 / 4];
        EncodeDecodePair(q, i0, i1, i2);
      } else {
        var i3: int := CharSextet(q[3]);
        assert q == [SextetChar(i0), SextetChar(i1), SextetChar(i2), SextetChar(i3)];
        assert bs == [i0 * 4 + i1 / 16, (i1 % 16) * 16 + i2 / 4, (i2 % 4) * 64 + i3];
        EncodeDecodeTriple(q, i0, i1, i2, i3);
      }
    }
  }

  /** A full group of four alphabet characters is the encoding of the three bytes it decodes to. */
  lemma QuadEncodes(q: string)
    requires |q| == 4
    requires IsAlphabetChar(q[0]) && IsAlphabetChar(q[1]) && IsAlphabetChar(q[2]) && IsAlphabetChar(q[3])
    ensures var d := DecodeQuad(q).value; |d| == 3 && q == EncodeTriple(d[0], d[1], d[2])
  {
    var i0: int, i1: int, i2: int, i3: int := CharSextet(q[0]), CharSextet(q[1]), CharSextet(q[2]), CharSextet(q[3]);
    var d := DecodeQuad(q).value;
    assert d == [i0 * 4 + i1 / 16, (i1 % 16) * 16 + i2 / 4, (i2 % 4) * 64 + i3];
    assert q == [SextetChar(i0), SextetChar(i1), SextetChar(i2), SextetChar(i3)];
    EncodeDecodeTriple(q, i0, i1, i2, i3);
    EncodeLeadingTriple(d);
  }

  /** One step of the converse induction: a leading full group is the encoding of its
      three bytes. */
  lemma EncodeDecodeStep(s: string, bs: seq<byte>, rest: seq<byte>)
    requires |s| > 4
    requires IsAlphabetChar(s[0]) && IsAlphabetChar(s[1]) && IsAlphabetChar(s[2]) && IsAlphabetChar(s[3])
    requires s[4..] == Encode(rest)
    requires bs == DecodeQuad(s[..4]).value + rest
    ensures s == Encode(bs)
  {
    QuadEncodes(s[..4]);
    EncodeLeadingTriple(bs);
    assert bs[3..] == rest;
    assert s == s[..4] + s[4..];
  }

  /** Encoding inverts decoding: text that decodes is the encoding of its bytes, so no
      other text decodes to the same bytes. */
  lemma {:induction false} EncodeDecode(s: string, bs: seq<byte>)
    requires Decode(s) == Some(bs)
    ensures s == Encode(bs)
    decreases |s|
  {
    if |s| == 4 {
      EncodeDecodeFinal(s, bs);
    } else if |s| > 4 {
      var rest := Decode(s[4..]).value;
      EncodeDecode(s[4..], rest);
      EncodeDecodeStep(s, bs, rest);
    }
  }

  /** "AA==" is the one encoding of the zero byte; "AB==" sets a spare bit and is refused. */
  lemma SpareBitsRefused()
    ensures Decode("AA==") == Some([0])
    ensures Decode("AB==") == None
  {
  }
}
