/** The "base64" encoding of section 4 of RFC 4648 (standard alphabet, `=`
    padding, no line breaks), as `java.util.Base64.getEncoder()` writes it and
    `java.util.Base64.getDecoder()` reads it. */
module Base64 {
  import opened Results

  newtype byte = x: int | 0 <= x < 256

  const Pad: char := '='

  /** The character for the 6-bit value `n`: Table 1 of section 4 of RFC 4648. */
  function CharOf(n: int): (c: char)
    requires 0 <= n < 64
  {
    if n < 26 then ('A' as int + n) as char
    else if n < 52 then ('a' as int + (n - 26)) as char
    else if n < 62 then ('0' as int + (n - 52)) as char
    else if n == 62 then '+'
    else '/'
  }

  /** The 6-bit value of an alphabet character, `None` for any other
      character: the decoder's reverse table. */
  function IndexOf(c: char): (r: Option<int>)
    ensures r.Some? ==> 0 <= r.value < 64 && CharOf(r.value) == c
    ensures r.None? ==> forall n :: 0 <= n < 64 ==> CharOf(n) != c
  {
    if 'A' <= c <= 'Z' then Some(c as int - 'A' as int)
    else if 'a' <= c <= 'z' then Some(c as int - 'a' as int + 26)
    else if '0' <= c <= '9' then Some(c as int - '0' as int + 52)
    else if c == '+' then Some(62)
    else if c == '/' then Some(63)
    else None
  }

  predicate InAlphabet(c: char)
  {
    IndexOf(c).Some?
  }

  function Sextet(c: char): (n: int)
    requires InAlphabet(c)
    ensures 0 <= n < 64
  {
    IndexOf(c).value
  }

  /** Three bytes become four characters. */
  function EncodeBlock(a: byte, b: byte, c: byte): string
  {
    [CharOf(a as int / 4),
     CharOf(a as int % 4 * 16 + b as int / 16),
     CharOf(b as int % 16 * 4 + c as int / 64),
     CharOf(c as int % 64)]
  }

  /** `Base64.getEncoder().encodeToString`: blocks of three bytes, and a final
      unit of one or two bytes padded with `=` to four characters. */
  function Encode(data: seq<byte>): (s: string)
    ensures forall i :: 0 <= i < |s| ==> InAlphabet(s[i]) || s[i] == Pad
  {
    if |data| == 0 then ""
    else if |data| == 1 then
      [CharOf(data[0] as int / 4), CharOf(data[0] as int % 4 * 16), Pad, Pad]
    else if |data| == 2 then
      [CharOf(data[0] as int / 4),
       CharOf(data[0] as int % 4 * 16 + data[1] as int / 16),
       CharOf(data[1] as int % 16 * 4),
       Pad]
    else
      EncodeBlock(data[0], data[1], data[2]) + Encode(data[3..])
  }

  /** Four alphabet characters become three bytes. */
  function DecodeBlock(c0: char, c1: char, c2: char, c3: char): seq<byte>
    requires InAlphabet(c0) && InAlphabet(c1) && InAlphabet(c2) && InAlphabet(c3)
  {
    [(Sextet(c0) * 4 + Sextet(c1) / 16) as byte,
     (Sextet(c1) % 16 * 16 + Sextet(c2) / 4) as byte,
     (Sextet(c2) % 4 * 64 + Sextet(c3)) as byte]
  }

  /** The final unit of an encoded text: two characters (one byte) or three
      characters (two bytes), each with or without its padding. Like the Java
      decoder, the bits below the last whole byte are ignored. */
  function DecodeFinal(s: string): Option<seq<byte>>
  {
    if (|s| == 2 || (|s| == 4 && s[2] == Pad && s[3] == Pad))
       && InAlphabet(s[0]) && InAlphabet(s[1]) then
      Some([(Sextet(s[0]) * 4 + Sextet(s[1]) / 16) as byte])
    else if (|s| == 3 || (|s| == 4 && s[3] == Pad))
       && InAlphabet(s[0]) && InAlphabet(s[1]) && InAlphabet(s[2]) then
      Some([(Sextet(s[0]) * 4 + Sextet(s[1]) / 16) as byte,
            (Sextet(s[1]) % 16 * 16 + Sextet(s[2]) / 4) as byte])
    else None
  }

  /** `Base64.getDecoder().decode`: `None` where Java throws
      IllegalArgumentException (a character outside the alphabet, a misplaced
      `=`, a final unit of one character, anything after the padding). */
  function Decode(s: string): (r: Option<seq<byte>>)
    ensures r.Some? ==> forall i :: 0 <= i < |s| ==> InAlphabet(s[i]) || s[i] == Pad
  {
    if |s| == 0 then Some([])
    else if |s| >= 4 && InAlphabet(s[0]) && InAlphabet(s[1]) && InAlphabet(s[2]) && InAlphabet(s[3]) then
      match Decode(s[4..])
      case None => None
      case Some(rest) => Some(DecodeBlock(s[0], s[1], s[2], s[3]) + rest)
    else DecodeFinal(s)
  }

  /** Every started group of three bytes takes four characters. */
  lemma {:induction false} EncodeLength(data: seq<byte>)
    ensures |Encode(data)| == (|data| + 2) / 3 * 4
    decreases |data|
  {
    if |data| >= 3 {
      EncodeLength(data[3..]);
      EncodeUnfold(data);
      GroupArithmetic(0, |data[3..]| + 2);
    }
  }

  /** Each four characters give at most three bytes, and the final unit of
      at most four characters gives at least one byte. */
  lemma {:induction false} DecodeLength(s: string)
    requires Decode(s).Some?
    ensures |Decode(s).value| <= |s| / 4 * 3 + 2
    ensures |s| <= |Decode(s).value| / 3 * 4 + 4
    decreases |s|
  {
    if |s| >= 4 && InAlphabet(s[0]) && InAlphabet(s[1]) && InAlphabet(s[2]) && InAlphabet(s[3]) {
      DecodeLength(s[4..]);
      var n := |Decode(s[4..]).value|;
      assert |Decode(s).value| == n + 3;
      GroupArithmetic(|s[4..]|, n);
    } else if |s| > 0 {
      DecodeFinalLength(s);
    }
  }

  lemma GroupArithmetic(m: nat, n: nat)
    ensures (m + 4) / 4 * 3 == m / 4 * 3 + 3
    ensures (n + 3) / 3 * 4 == n / 3 * 4 + 4
  {
  }

  lemma DecodeFinalLength(s: string)
    requires DecodeFinal(s).Some?
    ensures 2 <= |s| <= 4 && 1 <= |DecodeFinal(s).value| <= 2
  {
  }

  lemma SextetOfCharOf(n: int)
    requires 0 <= n < 64
    ensures InAlphabet(CharOf(n)) && Sextet(CharOf(n)) == n
  {
  }

  /** The byte arithmetic of one block: splitting three bytes into four
      sextets and joining them again gives the three bytes back. */
  lemma SplitJoin(a: int, b: int, c: int)
    requires 0 <= a < 256 && 0 <= b < 256 && 0 <= c < 256
    ensures a / 4 * 4 + (a % 4 * 16 + b / 16) / 16 == a
    ensures (a % 4 * 16 + b / 16) % 16 * 16 + (b % 16 * 4 + c / 64) / 4 == b
    ensures (b % 16 * 4 + c / 64) % 4 * 64 + c % 64 == c
  {
    var s1 := a % 4 * 16 + b / 16;
    assert s1 / 16 == a % 4 && s1 % 16 == b / 16;
    var s2 := b % 16 * 4 + c / 64;
    assert s2 / 4 == b % 16 && s2 % 4 == c / 64;
  }

  lemma BlockRoundTrip(a: byte, b: byte, c: byte)
    ensures var s := EncodeBlock(a, b, c);
            InAlphabet(s[0]) && InAlphabet(s[1]) && InAlphabet(s[2]) && InAlphabet(s[3])
            && DecodeBlock(s[0], s[1], s[2], s[3]) == [a, b, c]
  {
    var s := EncodeBlock(a, b, c);
    SextetOfCharOf(a as int / 4);
    SextetOfCharOf(a as int % 4 * 16 + b as int / 16);
    SextetOfCharOf(b as int % 16 * 4 + c as int / 64);
    SextetOfCharOf(c as int % 64);
    SplitJoin(a as int, b as int, c as int);
  }

  lemma FinalOneRoundTrip(a: byte)
    ensures Decode(Encode([a])) == Some([a])
  {
    var s := Encode([a]);
    SextetOfCharOf(a as int / 4);
    SextetOfCharOf(a as int % 4 * 16);
    SplitJoin(a as int, 0, 0);
    assert !InAlphabet(s[2]);
    assert DecodeFinal(s) == Some([a]);
  }

  lemma FinalTwoRoundTrip(a: byte, b: byte)
    ensures Decode(Encode([a, b])) == Some([a, b])
  {
    var s := Encode([a, b]);
    SextetOfCharOf(a as int / 4);
    SextetOfCharOf(a as int % 4 * 16 + b as int / 16);
    SextetOfCharOf(b as int % 16 * 4);
    SplitJoin(a as int, b as int, 0);
    assert !InAlphabet(s[3]);
    assert DecodeFinal(s) == Some([a, b]);
  }

  lemma DecodeAfterBlock(block: string, rest: string)
    requires |block| == 4
    requires InAlphabet(block[0]) && InAlphabet(block[1]) && InAlphabet(block[2]) && InAlphabet(block[3])
    ensures Decode(block + rest) ==
            match Decode(rest)
            case None => None
            case Some(r) => Some(DecodeBlock(block[0], block[1], block[2], block[3]) + r)
  {
    var s := block + rest;
    assert s[0] == block[0] && s[1] == block[1] && s[2] == block[2] && s[3] == block[3];
    assert s[4..] == rest;
  }

  /** Decoding an encoded text of at least one whole block decodes that
      block and then the rest. */
  lemma EncodeUnfold(data: seq<byte>)
    requires |data| >= 3
    ensures Encode(data) == EncodeBlock(data[0], data[1], data[2]) + Encode(data[3..])
  {
  }

  lemma BlockStep(data: seq<byte>, rest: seq<byte>)
    requires |data| >= 3
    requires Decode(Encode(data[3..])) == Some(rest)
    ensures Decode(Encode(data)) == Some([data[0], data[1], data[2]] + rest)
  {
    var block := EncodeBlock(data[0], data[1], data[2]);
    var tail := Encode(data[3..]);
    EncodeUnfold(data);
    BlockRoundTrip(data[0], data[1], data[2]);
    DecodeAfterBlock(block, tail);
  }

  lemma SplitBlock(data: seq<byte>)
    requires |data| >= 3
    ensures data == [data[0], data[1], data[2]] + data[3..]
  {
  }

  /** Decoding undoes encoding, for every byte sequence. */
  lemma {:induction false} DecodeEncode(data: seq<byte>)
    ensures Decode(Encode(data)) == Some(data)
    decreases |data|
  {
    if |data| == 1 {
      FinalOneRoundTrip(data[0]);
      assert data == [data[0]];
    } else if |data| == 2 {
      FinalTwoRoundTrip(data[0], data[1]);
      assert data == [data[0], data[1]];
    } else if |data| >= 3 {
      DecodeEncode(data[3..]);
      BlockStep(data, data[3..]);
      SplitBlock(data);
    }
  }
}
