/**
 * The standard base64 alphabet with padding (section 4 of RFC 4648), as the
 * Go decoder `base64.StdEncoding` applies it: the input is read in quanta of
 * four characters, `=` may only pad the last quantum ("xx==" or "xxx="), and,
 * as in Go's default non-strict mode, the unused low bits of the last
 * character before the padding are ignored.
 */
module Base64 {
  import opened Wrappers

  type Byte = b: int | 0 <= b < 256
  type Sextet = v: int | 0 <= v < 64

  const PadChar: char := '='

  /** The 64 characters of the standard alphabet (table 1 of RFC 4648). */
  predicate IsAlphabetChar(c: char) {
    'A' <= c <= 'Z' || 'a' <= c <= 'z' || '0' <= c <= '9' || c == '+' || c == '/'
  }

  /** The character that encodes a 6-bit value. */
  function CharOf(v: Sextet): (c: char)
    ensures IsAlphabetChar(c)
  {
    if v < 26 then ('A' as int + v) as char
    else if v < 52 then ('a' as int + (v - 26)) as char
    else if v < 62 then ('0' as int + (v - 52)) as char
    else if v == 62 then '+'
    else '/'
  }

  /** The 6-bit value an alphabet character stands for; the inverse of CharOf. */
  function ValueOf(c: char): (v: Sextet)
    requires IsAlphabetChar(c)
    ensures CharOf(v) == c
  {
    if 'A' <= c <= 'Z' then c as int - 'A' as int
    else if 'a' <= c <= 'z' then c as int - 'a' as int + 26
    else if '0' <= c <= '9' then c as int - '0' as int + 52
    else if c == '+' then 62
    else 63
  }

  lemma ValueOfCharOf(v: Sextet)
    ensures ValueOf(CharOf(v)) == v
  {
  }

  // Three bytes are cut into four sextets, most significant bits first.
  function Split0(b0: Byte): Sextet { b0 / 4 }
  function Split1(b0: Byte, b1: Byte): Sextet { (b0 % 4) * 16 + b1 / 16 }
  function Split2(b1: Byte, b2: Byte): Sextet { (b1 % 16) * 4 + b2 / 64 }
  function Split3(b2: Byte): Sextet { b2 % 64 }

  // Four sextets are joined back into three bytes.
  function Join0(v0: Sextet, v1: Sextet): Byte { v0 * 4 + v1 / 16 }
  function Join1(v1: Sextet, v2: Sextet): Byte { (v1 % 16) * 16 + v2 / 4 }
  function Join2(v2: Sextet, v3: Sextet): Byte { (v2 % 4) * 64 + v3 }

  /** Joining the sextets of three bytes gives the bytes back. */
  lemma JoinSplit(b0: Byte, b1: Byte, b2: Byte)
    ensures Join0(Split0(b0), Split1(b0, b1)) == b0
    ensures Join1(Split1(b0, b1), Split2(b1, b2)) == b1
    ensures Join2(Split2(b1, b2), Split3(b2)) == b2
  {
  }

  /** Splitting the bytes joined from four sextets gives the sextets back. */
  lemma SplitJoin(v0: Sextet, v1: Sextet, v2: Sextet, v3: Sextet)
    ensures Split0(Join0(v0, v1)) == v0
    ensures Split1(Join0(v0, v1), Join1(v1, v2)) == v1
    ensures Split2(Join1(v1, v2), Join2(v2, v3)) == v2
    ensures Split3(Join2(v2, v3)) == v3
    ensures v1 % 16 == 0 ==> Split1(Join0(v0, v1), 0) == v1
    ensures v2 % 4 == 0 ==> Split2(Join1(v1, v2), 0) == v2
  {
  }

  /** Three bytes as four characters. */
  function EncodeQuantum(b0: Byte, b1: Byte, b2: Byte): string {
    [CharOf(Split0(b0)), CharOf(Split1(b0, b1)), CharOf(Split2(b1, b2)), CharOf(Split3(b2))]
  }

  /** One trailing byte as two characters and two pads. */
  function EncodeLastOne(b0: Byte): string {
    [CharOf(Split0(b0)), CharOf(Split1(b0, 0)), PadChar, PadChar]
  }

  /** Two trailing bytes as three characters and one pad. */
  function EncodeLastTwo(b0: Byte, b1: Byte): string {
    [CharOf(Split0(b0)), CharOf(Split1(b0, b1)), CharOf(Split2(b1, 0)), PadChar]
  }

  /** The padded standard encoding of a byte string. */
  function Encode(b: seq<Byte>): string
    decreases |b|
  {
    if |b| == 0 then []
    else if |b| == 1 then EncodeLastOne(b[0])
    else if |b| == 2 then EncodeLastTwo(b[0], b[1])
    else EncodeQuantum(b[0], b[1], b[2]) + Encode(b[3..])
  }

  /**
   * One quantum of four characters: three bytes, or, when padded, two bytes
   * ("xxx=") or one ("xx=="). Padding in the first two positions, or a third
   * position padded without the fourth, is corrupt input.
   */
  function DecodeQuantum(c0: char, c1: char, c2: char, c3: char): Option<seq<Byte>> {
    if !IsAlphabetChar(c0) || !IsAlphabetChar(c1) then None
    else
      var v0, v1 := ValueOf(c0), ValueOf(c1);
      if c2 == PadChar then
        if c3 == PadChar then Some([Join0(v0, v1)]) else None
      else if !IsAlphabetChar(c2) then None
      else
        var v2 := ValueOf(c2);
        if c3 == PadChar then Some([Join0(v0, v1), Join1(v1, v2)])
        else if !IsAlphabetChar(c3) then None
        else Some([Join0(v0, v1), Join1(v1, v2), Join2(v2, ValueOf(c3))])
  }

  /**
   * Decoding: None when the input is not valid padded base64 (a length that
   * is not a multiple of four, a character outside the alphabet, padding
   * anywhere but the end of the input), which is exactly when it is not
   * WellFormed.
   */
  function Decode(s: string): (r: Option<seq<Byte>>)
    ensures r.Some? <==> WellFormed(s)
    decreases |s|
  {
    if |s| == 0 then Some([])
    else if |s| < 4 then None
    else
      DecodeQuantumShape(s[0], s[1], s[2], s[3]);
      WellFormedSplit(s);
      match DecodeQuantum(s[0], s[1], s[2], s[3])
      case None => None
      case Some(q) =>
        if |q| < 3 then (if |s| == 4 then Some(q) else None)
        else
          match Decode(s[4..])
          case None => None
          case Some(rest) => Some(q + rest)
  }

  /** Every three bytes, and a last one or two, take four characters. */
  lemma {:induction false} EncodeLength(b: seq<Byte>)
    ensures |Encode(b)| == 4 * ((|b| + 2) / 3)
    decreases |b|
  {
    if |b| > 2 {
      EncodeLength(b[3..]);
      assert (|b| + 2) / 3 == (|b[3..]| + 2) / 3 + 1;
    }
  }

  /** What the decoder accepts is as long as the encoding of what it gives back. */
  lemma {:induction false} DecodeLength(s: string)
    requires Decode(s).Some?
    ensures |s| == 4 * ((|Decode(s).value| + 2) / 3)
    decreases |s|
  {
    if |s| == 4 {
      DecodeSingleQuantum(s);
      DecodeQuantumSize(s[0], s[1], s[2], s[3]);
    } else if |s| > 4 {
      var q := DecodeQuantum(s[0], s[1], s[2], s[3]).value;
      var rest := Decode(s[4..]).value;
      DecodeLength(s[4..]);
      assert |Decode(s).value| == 3 + |rest|;
      assert (3 + |rest| + 2) / 3 == (|rest| + 2) / 3 + 1;
    }
  }

  lemma DecodeQuantumSize(c0: char, c1: char, c2: char, c3: char)
    requires DecodeQuantum(c0, c1, c2, c3).Some?
    ensures 1 <= |DecodeQuantum(c0, c1, c2, c3).value| <= 3
  {
  }

  /**
   * Valid input, stated without reference to the decoder: whole quanta, every
   * character from the alphabet except that the last one may be `=`, and the
   * one before it too when the last one is.
   */
  predicate WellFormed(s: string) {
    && |s| % 4 == 0
    && (forall i :: 0 <= i < |s| - 2 ==> IsAlphabetChar(s[i]))
    && (|s| > 0 ==> IsAlphabetChar(s[|s| - 1]) || s[|s| - 1] == PadChar)
    && (|s| > 0 ==> IsAlphabetChar(s[|s| - 2]) || (s[|s| - 2] == PadChar && s[|s| - 1] == PadChar))
  }

  /** The four characters of a full quantum give back its three bytes. */
  lemma QuantumRoundTrip(b0: Byte, b1: Byte, b2: Byte)
    ensures var q := EncodeQuantum(b0, b1, b2);
      DecodeQuantum(q[0], q[1], q[2], q[3]) == Some([b0, b1, b2])
  {
    ValueOfCharOf(Split0(b0));
    ValueOfCharOf(Split1(b0, b1));
    ValueOfCharOf(Split2(b1, b2));
    ValueOfCharOf(Split3(b2));
    JoinSplit(b0, b1, b2);
  }

  /** The last quantum padded to one byte ("xx==") gives that byte back. */
  lemma OneByteRoundTrip(b0: Byte)
    ensures var q := EncodeLastOne(b0);
      DecodeQuantum(q[0], q[1], q[2], q[3]) == Some([b0])
  {
    ValueOfCharOf(Split0(b0));
    ValueOfCharOf(Split1(b0, 0));
    JoinSplit(b0, 0, 0);
  }

  /** The last quantum padded to two bytes ("xxx=") gives those bytes back. */
  lemma TwoBytesRoundTrip(b0: Byte, b1: Byte)
    ensures var q := EncodeLastTwo(b0, b1);
      DecodeQuantum(q[0], q[1], q[2], q[3]) == Some([b0, b1])
  {
    ValueOfCharOf(Split0(b0));
    ValueOfCharOf(Split1(b0, b1));
    ValueOfCharOf(Split2(b1, 0));
    JoinSplit(b0, b1, 0);
  }

  lemma SplitAfterQuantum(b: seq<Byte>)
    requires |b| >= 3
    ensures [b[0], b[1], b[2]] + b[3..] == b
  {
  }

  /** Round trip: decoding an encoding gives back the original bytes. */
  lemma {:induction false} DecodeEncode(b: seq<Byte>)
    ensures Decode(Encode(b)) == Some(b)
    decreases |b|
  {
    if |b| <= 2 {
      DecodeEncodeLast(b);
    } else {
      var q := EncodeQuantum(b[0], b[1], b[2]);
      QuantumRoundTrip(b[0], b[1], b[2]);
      DecodeEncode(b[3..]);
      DecodeQuantumThen(q, Encode(b[3..]), [b[0], b[1], b[2]], b[3..]);
      SplitAfterQuantum(b);
      assert Encode(b) == q + Encode(b[3..]);
    }
  }

  /** The round trip for the last, padded quantum. */
  lemma DecodeEncodeLast(b: seq<Byte>)
    requires |b| <= 2
    ensures Decode(Encode(b)) == Some(b)
  {
    if |b| == 1 {
      var b0 := b[0];
      assert b == [b0];
      OneByteRoundTrip(b0);
      DecodeSingleQuantum(EncodeLastOne(b0));
    } else if |b| == 2 {
      var b0, b1 := b[0], b[1];
      assert b == [b0, b1];
      TwoBytesRoundTrip(b0, b1);
      DecodeSingleQuantum(EncodeLastTwo(b0, b1));
    }
  }

  /** A full quantum followed by valid input decodes to the quantum's bytes followed by the rest's. */
  lemma DecodeQuantumThen(quantum: string, rest: string, q: seq<Byte>, r: seq<Byte>)
    requires |quantum| == 4 && |q| == 3
    requires DecodeQuantum(quantum[0], quantum[1], quantum[2], quantum[3]) == Some(q)
    requires Decode(rest) == Some(r)
    ensures Decode(quantum + rest) == Some(q + r)
  {
    var s := quantum + rest;
    assert s[0] == quantum[0] && s[1] == quantum[1] && s[2] == quantum[2] && s[3] == quantum[3];
    assert s[4..] == rest;
  }

  /** When a quantum decodes, and to how many bytes. */
  lemma DecodeQuantumShape(c0: char, c1: char, c2: char, c3: char)
    ensures var r := DecodeQuantum(c0, c1, c2, c3);
      && (r.Some? <==> IsAlphabetChar(c0) && IsAlphabetChar(c1)
                       && ((IsAlphabetChar(c2) && (IsAlphabetChar(c3) || c3 == PadChar)) || (c2 == PadChar && c3 == PadChar)))
      && (r.Some? ==> (|r.value| == 3 <==> IsAlphabetChar(c2) && IsAlphabetChar(c3)))
  {
  }

  /** A well-formed string longer than one quantum is a full quantum followed by a well-formed string. */
  lemma WellFormedSplit(s: string)
    requires |s| >= 4
    ensures |s| > 4 ==> (WellFormed(s) <==>
      IsAlphabetChar(s[0]) && IsAlphabetChar(s[1]) && IsAlphabetChar(s[2]) && IsAlphabetChar(s[3]) && WellFormed(s[4..]))
  {
    var t := s[4..];
    if |s| > 4 && WellFormed(s) {
      forall i | 0 <= i < |t| - 2 ensures IsAlphabetChar(t[i]) {
        assert t[i] == s[i + 4];
      }
    }
    if |s| > 4 && IsAlphabetChar(s[0]) && IsAlphabetChar(s[1]) && IsAlphabetChar(s[2]) && IsAlphabetChar(s[3]) && WellFormed(t) {
      forall i | 0 <= i < |s| - 2 ensures IsAlphabetChar(s[i]) {
        if i >= 4 { assert s[i] == t[i - 4]; }
      }
    }
  }

  /**
   * The bits that padding leaves unused in the last character are zero, as
   * RFC 4648 section 3.5 asks of encoders; Go's default decoder does not
   * insist on it.
   */
  predicate CanonicalPadding(s: string) {
    |s| >= 4 && s[|s| - 1] == PadChar ==>
      if s[|s| - 2] == PadChar then IsAlphabetChar(s[|s| - 3]) && ValueOf(s[|s| - 3]) % 16 == 0
      else IsAlphabetChar(s[|s| - 2]) && ValueOf(s[|s| - 2]) % 4 == 0
  }

  lemma DecodeFullQuantum(c0: char, c1: char, c2: char, c3: char)
    requires IsAlphabetChar(c0) && IsAlphabetChar(c1) && IsAlphabetChar(c2) && IsAlphabetChar(c3)
    ensures DecodeQuantum(c0, c1, c2, c3)
            == Some([Join0(ValueOf(c0), ValueOf(c1)), Join1(ValueOf(c1), ValueOf(c2)), Join2(ValueOf(c2), ValueOf(c3))])
  {
  }

  lemma DecodeTwoBytesQuantum(c0: char, c1: char, c2: char)
    requires IsAlphabetChar(c0) && IsAlphabetChar(c1) && IsAlphabetChar(c2)
    ensures DecodeQuantum(c0, c1, c2, PadChar) == Some([Join0(ValueOf(c0), ValueOf(c1)), Join1(ValueOf(c1), ValueOf(c2))])
  {
  }

  lemma DecodeOneByteQuantum(c0: char, c1: char)
    requires IsAlphabetChar(c0) && IsAlphabetChar(c1)
    ensures DecodeQuantum(c0, c1, PadChar, PadChar) == Some([Join0(ValueOf(c0), ValueOf(c1))])
  {
  }

  lemma EncodeJoinedQuantum(v0: Sextet, v1: Sextet, v2: Sextet, v3: Sextet)
    ensures EncodeQuantum(Join0(v0, v1), Join1(v1, v2), Join2(v2, v3)) == [CharOf(v0), CharOf(v1), CharOf(v2), CharOf(v3)]
  {
    SplitJoin(v0, v1, v2, v3);
  }

  lemma EncodeJoinedTwoBytes(v0: Sextet, v1: Sextet, v2: Sextet)
    requires v2 % 4 == 0
    ensures EncodeLastTwo(Join0(v0, v1), Join1(v1, v2)) == [CharOf(v0), CharOf(v1), CharOf(v2), PadChar]
  {
    SplitJoin(v0, v1, v2, 0);
  }

  lemma EncodeJoinedOneByte(v0: Sextet, v1: Sextet)
    requires v1 % 16 == 0
    ensures EncodeLastOne(Join0(v0, v1)) == [CharOf(v0), CharOf(v1), PadChar, PadChar]
  {
    SplitJoin(v0, v1, 0, 0);
  }

  lemma QuantumInverse(c0: char, c1: char, c2: char, c3: char)
    requires IsAlphabetChar(c0) && IsAlphabetChar(c1) && IsAlphabetChar(c2) && IsAlphabetChar(c3)
    ensures DecodeQuantum(c0, c1, c2, c3).Some?
    ensures var q := DecodeQuantum(c0, c1, c2, c3).value;
      |q| == 3 && EncodeQuantum(q[0], q[1], q[2]) == [c0, c1, c2, c3]
  {
    var v0, v1, v2, v3 := ValueOf(c0), ValueOf(c1), ValueOf(c2), ValueOf(c3);
    DecodeFullQuantum(c0, c1, c2, c3);
    EncodeJoinedQuantum(v0, v1, v2, v3);
  }

  lemma TwoBytesInverse(c0: char, c1: char, c2: char)
    requires IsAlphabetChar(c0) && IsAlphabetChar(c1) && IsAlphabetChar(c2) && ValueOf(c2) % 4 == 0
    ensures DecodeQuantum(c0, c1, c2, PadChar).Some?
    ensures var q := DecodeQuantum(c0, c1, c2, PadChar).value;
      |q| == 2 && EncodeLastTwo(q[0], q[1]) == [c0, c1, c2, PadChar]
  {
    DecodeTwoBytesQuantum(c0, c1, c2);
    EncodeJoinedTwoBytes(ValueOf(c0), ValueOf(c1), ValueOf(c2));
  }

  lemma OneByteInverse(c0: char, c1: char)
    requires IsAlphabetChar(c0) && IsAlphabetChar(c1) && ValueOf(c1) % 16 == 0
    ensures DecodeQuantum(c0, c1, PadChar, PadChar).Some?
    ensures var q := DecodeQuantum(c0, c1, PadChar, PadChar).value;
      |q| == 1 && EncodeLastOne(q[0]) == [c0, c1, PadChar, PadChar]
  {
    DecodeOneByteQuantum(c0, c1);
    EncodeJoinedOneByte(ValueOf(c0), ValueOf(c1));
  }

  lemma DecodeSingleQuantum(s: string)
    requires |s| == 4
    ensures Decode(s) == DecodeQuantum(s[0], s[1], s[2], s[3])
  {
    match DecodeQuantum(s[0], s[1], s[2], s[3])
    case None =>
    case Some(q) =>
      if |q| == 3 {
        assert Decode(s[4..]) == Some([]);
        assert q + [] == q;
      }
  }

  lemma EncodeThree(q: seq<Byte>)
    requires |q| == 3
    ensures Encode(q) == EncodeQuantum(q[0], q[1], q[2])
  {
    assert Encode(q[3..]) == [];
  }

  /** A single quantum with canonical padding is the encoding of what it decodes to. */
  lemma EncodeDecodeQuantum(s: string)
    requires |s| == 4 && Decode(s).Some? && CanonicalPadding(s)
    ensures Encode(Decode(s).value) == s
  {
    DecodeSingleQuantum(s);
    DecodeQuantumShape(s[0], s[1], s[2], s[3]);
    var q := Decode(s).value;
    if IsAlphabetChar(s[2]) && IsAlphabetChar(s[3]) {
      QuantumInverse(s[0], s[1], s[2], s[3]);
      EncodeThree(q);
    } else if s[2] == PadChar {
      OneByteInverse(s[0], s[1]);
    } else {
      TwoBytesInverse(s[0], s[1], s[2]);
    }
    SplitQuantum(s);
  }

  lemma DecodeFirstQuantum(s: string)
    requires |s| > 4 && IsAlphabetChar(s[0]) && IsAlphabetChar(s[1]) && IsAlphabetChar(s[2]) && IsAlphabetChar(s[3])
    ensures Decode(s).Some? <==> Decode(s[4..]).Some?
    ensures Decode(s).Some? ==> Decode(s).value == DecodeQuantum(s[0], s[1], s[2], s[3]).value + Decode(s[4..]).value
  {
    DecodeQuantumShape(s[0], s[1], s[2], s[3]);
  }

  lemma CanonicalPaddingSuffix(s: string)
    requires |s| > 4 && CanonicalPadding(s)
    ensures CanonicalPadding(s[4..])
  {
    var t := s[4..];
    if |t| >= 4 {
      assert t[|t| - 1] == s[|s| - 1] && t[|t| - 2] == s[|s| - 2] && t[|t| - 3] == s[|s| - 3];
    }
  }

  /**
   * The other round trip: a string the decoder accepts and whose padding is
   * canonical is the encoding of what it decodes to.
   */
  lemma {:induction false} EncodeDecode(s: string)
    requires Decode(s).Some? && CanonicalPadding(s)
    ensures Encode(Decode(s).value) == s
    decreases |s|
  {
    if |s| == 4 {
      EncodeDecodeQuantum(s);
    } else if |s| > 4 {
      DecodeQuantumShape(s[0], s[1], s[2], s[3]);
      QuantumInverse(s[0], s[1], s[2], s[3]);
      DecodeFirstQuantum(s);
      CanonicalPaddingSuffix(s);
      var t := s[4..];
      EncodeDecode(t);
      EncodeAfterQuantum(DecodeQuantum(s[0], s[1], s[2], s[3]).value, Decode(t).value);
      SplitQuantum(s);
    }
  }

  lemma EncodeAfterQuantum(q: seq<Byte>, rest: seq<Byte>)
    requires |q| == 3
    ensures Encode(q + rest) == EncodeQuantum(q[0], q[1], q[2]) + Encode(rest)
  {
    assert (q + rest)[3..] == rest;
  }

  lemma SplitQuantum(s: string)
    requires |s| >= 4
    ensures s == [s[0], s[1], s[2], s[3]] + s[4..]
  {
  }
}
