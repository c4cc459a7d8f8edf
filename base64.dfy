/**
 * Standard base64 (section 4 of RFC 4648) as PHP's `base64_decode` reads it in
 * its default, non-strict mode, together with the encoder it inverts.
 *
 * The non-strict decoder never fails: padding `=` and every character outside
 * the alphabet are skipped, each group of four remaining characters gives
 * three bytes, and a final group of two or three characters gives one or two
 * bytes (a lone final character gives none).
 */
module Base64 {
  import opened Wrappers

  type byte = b: int | 0 <= b < 256

  /** The 6-bit value one base64 character stands for. */
  type sextet = v: int | 0 <= v < 64

  /** Position of `c` in the standard alphabet `A-Z a-z 0-9 + /`, if it belongs to it. */
  function SextetOf(c: char): Option<sextet> {
    if 'A' <= c <= 'Z' then Some(c as int - 'A' as int)
    else if 'a' <= c <= 'z' then Some(c as int - 'a' as int + 26)
    else if '0' <= c <= '9' then Some(c as int - '0' as int + 52)
    else if c == '+' then Some(62)
    else if c == '/' then Some(63)
    else None
  }

  /** The alphabet character for a 6-bit value. */
  function CharOf(v: sextet): (c: char)
    ensures SextetOf(c) == Some(v)
    ensures c != '=' && c != '.' && c != '-' && c != '_'
  {
    if v < 26 then ('A' as int + v) as char
    else if v < 52 then ('a' as int + v - 26) as char
    else if v < 62 then ('0' as int + v - 52) as char
    else if v == 62 then '+'
    else '/'
  }

  /** Every character of `s` belongs to the standard alphabet (no padding, nothing foreign). */
  predicate InAlphabet(s: string) {
    forall i | 0 <= i < |s| :: SextetOf(s[i]).Some?
  }

  /**
   * The alphabet characters of `s`, as values, in order; everything else is
   * skipped, so there are never more values than characters, and exactly as
   * many when every character belongs to the alphabet.
   */
  function Sextets(s: string): (q: seq<sextet>)
    ensures |q| <= |s|
    ensures InAlphabet(s) ==> |q| == |s|
  {
    if s == [] then []
    else (match SextetOf(s[0]) case Some(v) => [v] case None => []) + Sextets(s[1..])
  }

  /**
   * Bytes from 6-bit values, four values to three bytes. The output holds
   * three bytes for every four values, rounded down.
   */
  function DecodeSextets(q: seq<sextet>): (r: seq<byte>)
    ensures |r| == |q| * 3 / 4
  {
    if |q| < 2 then []
    else if |q| == 2 then [FirstByte(q[0], q[1])]
    else if |q| == 3 then [FirstByte(q[0], q[1]), SecondByte(q[1], q[2])]
    else [FirstByte(q[0], q[1]), SecondByte(q[1], q[2]), ThirdByte(q[2], q[3])] + DecodeSextets(q[4..])
  }

  /** The byte made of all six bits of `a` and the top two bits of `b`. */
  function FirstByte(a: sextet, b: sextet): byte {
    (a as int) * 4 + (b as int) / 16
  }

  /** The byte made of the low four bits of `b` and the top four bits of `c`. */
  function SecondByte(b: sextet, c: sextet): byte {
    (b as int % 16) * 16 + (c as int) / 4
  }

  /** The byte made of the low two bits of `c` and all six bits of `d`. */
  function ThirdByte(c: sextet, d: sextet): byte {
    (c as int % 4) * 64 + d as int
  }

  /**
   * PHP's non-strict `base64_decode`: it never yields more than three bytes
   * for every four characters, and exactly that many when every character
   * belongs to the alphabet.
   */
  function Decode(s: string): (r: seq<byte>)
    ensures |r| <= |s| * 3 / 4
    ensures InAlphabet(s) ==> |r| == |s| * 3 / 4
  {
    DecodeSextets(Sextets(s))
  }

  /** 6-bit values from bytes, three bytes to four values; a short final group is zero-filled. */
  function EncodeSextets(x: seq<byte>): (q: seq<sextet>)
    ensures |q| == (|x| * 4 + 2) / 3
  {
    if |x| == 0 then []
    else if |x| == 1 then [x[0] / 4, (x[0] % 4) * 16]
    else if |x| == 2 then [x[0] / 4, (x[0] % 4) * 16 + x[1] / 16, (x[1] % 16) * 4]
    else
      [x[0] / 4, (x[0] % 4) * 16 + x[1] / 16, (x[1] % 16) * 4 + x[2] / 64, x[2] % 64]
      + EncodeSextets(x[3..])
  }

  /** The alphabet characters for 6-bit values. */
  function Chars(q: seq<sextet>): (s: string)
    ensures |s| == |q|
    ensures forall i :: 0 <= i < |s| ==> s[i] == CharOf(q[i])
  {
    if q == [] then [] else [CharOf(q[0])] + Chars(q[1..])
  }

  /** The `=` padding that completes the last group of four characters. */
  function Padding(n: nat): string {
    if n % 3 == 1 then "==" else if n % 3 == 2 then "=" else ""
  }

  /** Standard base64 with padding. */
  function Encode(x: seq<byte>): (s: string)
    ensures |s| % 4 == 0
  {
    PaddedLength(|x|);
    Chars(EncodeSextets(x)) + Padding(|x|)
  }

  /** The values for `n` bytes and their padding fill whole groups of four. */
  lemma PaddedLength(n: nat)
    ensures ((n * 4 + 2) / 3 + |Padding(n)|) % 4 == 0
  {
    var k := n / 3;
    if n % 3 == 0 {
      assert n * 4 + 2 == 12 * k + 2;
      assert (n * 4 + 2) / 3 == 4 * k;
    } else if n % 3 == 1 {
      assert n * 4 + 2 == 12 * k + 6;
      assert (n * 4 + 2) / 3 + 2 == 4 * k + 4;
    } else {
      assert n * 4 + 2 == 12 * k + 10;
      assert (n * 4 + 2) / 3 + 1 == 4 * k + 4;
    }
  }

  lemma {:induction false} SextetsAppend(a: string, b: string)
    ensures Sextets(a + b) == Sextets(a) + Sextets(b)
  {
    if a == [] {
      assert a + b == b;
    } else {
      assert (a + b)[1..] == a[1..] + b;
      SextetsAppend(a[1..], b);
    }
  }

  /** Reading back the characters for some values gives those values. */
  lemma {:induction false} SextetsOfChars(q: seq<sextet>)
    ensures Sextets(Chars(q)) == q
  {
    if q != [] {
      assert Chars(q)[1..] == Chars(q[1..]);
      SextetsOfChars(q[1..]);
      assert [q[0]] + q[1..] == q;
    }
  }

  /** The decoder ignores padding. */
  lemma SextetsOfPadding(n: nat)
    ensures Sextets(Padding(n)) == []
  {
    assert Sextets("=") == [];
  }

  /** The decoder ignores every character outside the alphabet, wherever it stands. */
  lemma SkipsForeignCharacter(a: string, c: char, b: string)
    requires SextetOf(c) == None
    ensures Decode(a + [c] + b) == Decode(a + b)
  {
    SextetsAppend(a + [c], b);
    SextetsAppend(a, [c]);
    SextetsAppend(a, b);
    assert [c][1..] == [];
    assert Sextets([c]) == [];
    assert Sextets(a + [c]) == Sextets(a);
  }

  /** The four values of a group of three bytes are decoded as those bytes, one by one. */
  lemma GroupRoundTrip(x0: byte, x1: byte, x2: byte)
    ensures FirstByte(x0 / 4, (x0 % 4) * 16 + x1 / 16) == x0
    ensures SecondByte((x0 % 4) * 16 + x1 / 16, (x1 % 16) * 4 + x2 / 64) == x1
    ensures ThirdByte((x1 % 16) * 4 + x2 / 64, x2 % 64) == x2
  {
  }

  /** The first three bytes of at least three are encoded as four values, then the rest. */
  lemma {:induction false} EncodeGroup(x: seq<byte>)
    requires |x| >= 3
    ensures EncodeSextets(x)
         == [x[0] / 4, (x[0] % 4) * 16 + x[1] / 16, (x[1] % 16) * 4 + x[2] / 64, x[2] % 64] + EncodeSextets(x[3..])
  {
  }

  /** The first four of at least four values are decoded as three bytes, then the rest. */
  lemma {:induction false} DecodeGroup(g: seq<sextet>, rest: seq<sextet>)
    requires |g| == 4
    ensures DecodeSextets(g + rest)
         == [FirstByte(g[0], g[1]), SecondByte(g[1], g[2]), ThirdByte(g[2], g[3])] + DecodeSextets(rest)
  {
    assert (g + rest)[4..] == rest;
  }

  /** Decoding the values an encoding produced gives back the bytes. */
  lemma {:induction false} DecodeEncodeSextets(x: seq<byte>)
    ensures DecodeSextets(EncodeSextets(x)) == x
  {
    if |x| < 3 {
      DecodeEncodeShort(x);
    } else {
      DecodeEncodeSextets(x[3..]);
      DecodeEncodeGroup(x);
    }
  }

  /** One or two bytes are encoded as two or three values and decoded back. */
  lemma {:induction false} DecodeEncodeShort(x: seq<byte>)
    requires |x| < 3
    ensures DecodeSextets(EncodeSextets(x)) == x
  {
    if |x| == 1 {
      GroupRoundTrip(x[0], 0, 0);
    } else if |x| == 2 {
      GroupRoundTrip(x[0], x[1], 0);
    }
  }

  /** A leading group of three bytes survives the round trip when the rest does. */
  lemma {:induction false} DecodeEncodeGroup(x: seq<byte>)
    requires |x| >= 3
    requires DecodeSextets(EncodeSextets(x[3..])) == x[3..]
    ensures DecodeSextets(EncodeSextets(x)) == x
  {
    var g: seq<sextet> := [x[0] / 4, (x[0] % 4) * 16 + x[1] / 16, (x[1] % 16) * 4 + x[2] / 64, x[2] % 64];
    EncodeGroup(x);
    DecodeGroup(g, EncodeSextets(x[3..]));
    GroupRoundTrip(x[0], x[1], x[2]);
    assert x == [x[0], x[1], x[2]] + x[3..];
  }

  /** `base64_decode` inverts standard base64 encoding on every byte string. */
  lemma DecodeEncode(x: seq<byte>)
    ensures Decode(Encode(x)) == x
  {
    SextetsAppend(Chars(EncodeSextets(x)), Padding(|x|));
    SextetsOfChars(EncodeSextets(x));
    SextetsOfPadding(|x|);
    assert Sextets(Encode(x)) == EncodeSextets(x) + [];
    assert EncodeSextets(x) + [] == EncodeSextets(x);
    DecodeEncodeSextets(x);
  }
}
