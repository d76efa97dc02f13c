/**
 * Base64 as binary gRPC metadata travels in HTTP/2 headers: the encoding
 * of section 4 of RFC 4648 (`buffer.toString('base64')`, with '='
 * padding) and a decoder in the manner of `Buffer.from(text, 'base64')`,
 * which also reads the URL-safe alphabet (section 5 of RFC 4648) and passes over
 * characters outside the alphabets.
 */
module Base64 {
  import opened Common

  /** A 6-bit digit. */
  type Sextet = v: int | 0 <= v < 64

  /** The character of a digit in the standard alphabet (section 4 of RFC 4648). */
  function DigitChar(v: Sextet): (c: char)
  {
    if v < 26 then ('A' as int + v) as char
    else if v < 52 then ('a' as int + v - 26) as char
    else if v < 62 then ('0' as int + v - 52) as char
    else if v == 62 then '+'
    else '/'
  }

  /** The digit a character stands for, in either alphabet; none for padding and other characters. */
  function CharDigit(c: char): (r: Option<Sextet>)
  {
    if 'A' <= c <= 'Z' then Some(c as int - 'A' as int)
    else if 'a' <= c <= 'z' then Some(c as int - 'a' as int + 26)
    else if '0' <= c <= '9' then Some(c as int - '0' as int + 52)
    else if c == '+' || c == '-' then Some(62)
    else if c == '/' || c == '_' then Some(63)
    else None
  }

  lemma CharDigitOfDigitChar(v: Sextet)
    ensures CharDigit(DigitChar(v)) == Some(v)
  {
  }

  /** The digits of the bytes: every 3 bytes give 4 digits; a last group of 2 bytes gives 3, of 1 byte 2. */
  function ToSextets(b: seq<byte>): (r: seq<Sextet>)
    decreases |b|
  {
    if |b| == 0 then []
    else if |b| == 1 then [b[0] / 4, b[0] % 4 * 16]
    else if |b| == 2 then [b[0] / 4, b[0] % 4 * 16 + b[1] / 16, b[1] % 16 * 4]
    else [b[0] / 4, b[0] % 4 * 16 + b[1] / 16, b[1] % 16 * 4 + b[2] / 64, b[2] % 64] + ToSextets(b[3..])
  }

  /** The bytes of a run of digits: every 4 digits give 3 bytes, a last 3 give 2, a last 2 give 1, a last 1 none. */
  function FromSextets(v: seq<Sextet>): (r: seq<byte>)
    decreases |v|
  {
    if |v| <= 1 then []
    else if |v| == 2 then [v[0] as int * 4 + v[1] as int / 16]
    else if |v| == 3 then [v[0] as int * 4 + v[1] as int / 16, v[1] as int % 16 * 16 + v[2] as int / 4]
    else [v[0] as int * 4 + v[1] as int / 16, v[1] as int % 16 * 16 + v[2] as int / 4, v[2] as int % 4 * 64 + v[3] as int] + FromSextets(v[4..])
  }

  function Chars(v: seq<Sextet>): (s: string)
    ensures |s| == |v|
    ensures forall i :: 0 <= i < |v| ==> s[i] == DigitChar(v[i])
  {
    if v == [] then "" else [DigitChar(v[0])] + Chars(v[1..])
  }

  /** The '=' characters that fill the last group of 4. */
  function Padding(len: nat): string
  {
    if len % 3 == 1 then "==" else if len % 3 == 2 then "=" else ""
  }

  /** `buffer.toString('base64')`. */
  function Encode(b: seq<byte>): (s: string)
  {
    Chars(ToSextets(b)) + Padding(|b|)
  }

  /** The digits of a text: its characters of either alphabet, in order. */
  function Digits(s: string): (r: seq<Sextet>)
  {
    if s == [] then []
    else
      var d := CharDigit(s[0]);
      (if d.Some? then [d.value] else []) + Digits(s[1..])
  }

  /** `Buffer.from(text, 'base64')`. */
  function Decode(s: string): (b: seq<byte>)
  {
    FromSextets(Digits(s))
  }

  /** An encoding is 4 characters per started group of 3 bytes. */
  lemma {:induction false} EncodeLength(b: seq<byte>)
    ensures |Encode(b)| == 4 * ((|b| + 2) / 3)
    decreases |b|
  {
    if |b| >= 3 {
      EncodeLength(b[3..]);
      assert ToSextets(b)[4..] == ToSextets(b[3..]);
      assert (|b| + 2) / 3 == (|b| - 3 + 2) / 3 + 1;
      assert |Padding(|b|)| == |Padding(|b| - 3)|;
    }
  }

  lemma {:induction false} DigitsConcat(a: string, b: string)
    ensures Digits(a + b) == Digits(a) + Digits(b)
    decreases |a|
  {
    if a != [] {
      var head := if CharDigit(a[0]).Some? then [CharDigit(a[0]).value] else [];
      assert (a + b)[0] == a[0];
      assert (a + b)[1..] == a[1..] + b;
      DigitsConcat(a[1..], b);
      calc {
        Digits(a + b);
        head + Digits(a[1..] + b);
        head + (Digits(a[1..]) + Digits(b));
        (head + Digits(a[1..])) + Digits(b);
        Digits(a) + Digits(b);
      }
    } else {
      assert a + b == b;
    }
  }

  lemma {:induction false} DigitsOfChars(v: seq<Sextet>)
    ensures Digits(Chars(v)) == v
    decreases |v|
  {
    if v != [] {
      CharDigitOfDigitChar(v[0]);
      assert Chars(v)[1..] == Chars(v[1..]);
      DigitsOfChars(v[1..]);
    }
  }

  lemma DigitsOfPadding(len: nat)
    ensures Digits(Padding(len)) == []
  {
    assert Digits("") == [];
    assert Digits("=") == [] by { assert "="[1..] == ""; }
    assert Digits("==") == [] by { assert "=="[1..] == "="; }
  }

  /** The high part of a digit built from a low part below 16 (or 4, or 64) is the part put in. */
  lemma JoinParts(hi: int, lo: int, n: int)
    requires n > 0 && 0 <= lo < n
    ensures (hi * n + lo) / n == hi && (hi * n + lo) % n == lo
  {
    ModUnique(hi * n + lo, n, hi, lo);
  }

  /** One full group: the 4 digits of 3 bytes give the 3 bytes back. */
  lemma GroupRoundTrip(x: byte, y: byte, z: byte)
    ensures var v: seq<Sextet> := [x / 4, x % 4 * 16 + y / 16, y % 16 * 4 + z / 64, z % 64];
      v[0] as int * 4 + v[1] as int / 16 == x && v[1] as int % 16 * 16 + v[2] as int / 4 == y && v[2] as int % 4 * 64 + v[3] as int == z
  {
    JoinParts(x % 4, y / 16, 16);
    JoinParts(y % 16, z / 64, 4);
  }

  /** A last group of 2 bytes. */
  lemma PairRoundTrip(x: byte, y: byte)
    ensures var v: seq<Sextet> := [x / 4, x % 4 * 16 + y / 16, y % 16 * 4];
      v[0] as int * 4 + v[1] as int / 16 == x && v[1] as int % 16 * 16 + v[2] as int / 4 == y
  {
    JoinParts(x % 4, y / 16, 16);
    JoinParts(y % 16, 0, 4);
  }

  /** A last single byte. */
  lemma SingleRoundTrip(x: byte)
    ensures var v: seq<Sextet> := [x / 4, x % 4 * 16];
      v[0] as int * 4 + v[1] as int / 16 == x
  {
    JoinParts(x % 4, 0, 16);
  }

  lemma {:induction false} SextetsRoundTrip(b: seq<byte>)
    ensures FromSextets(ToSextets(b)) == b
    decreases |b|
  {
    if |b| < 3 {
      ShortRoundTrip(b);
    } else {
      GroupStep(b);
      SextetsRoundTrip(b[3..]);
      assert b == b[..3] + b[3..];
    }
  }

  /** Up to 2 bytes come back from their 0, 2 or 3 digits. */
  lemma {:induction false} ShortRoundTrip(b: seq<byte>)
    requires |b| < 3
    ensures FromSextets(ToSextets(b)) == b
  {
    if |b| == 1 {
      SingleRoundTrip(b[0]);
    } else if |b| == 2 {
      PairRoundTrip(b[0], b[1]);
    }
  }

  /** The first 3 bytes come back from the first 4 digits, ahead of the rest. */
  lemma {:induction false} GroupStep(b: seq<byte>)
    requires |b| >= 3
    ensures FromSextets(ToSextets(b)) == b[..3] + FromSextets(ToSextets(b[3..]))
  {
    var g: seq<Sextet> := [b[0] / 4, b[0] % 4 * 16 + b[1] / 16, b[1] % 16 * 4 + b[2] / 64, b[2] % 64];
    assert ToSextets(b) == g + ToSextets(b[3..]);
    FromSextetsGroup(g, ToSextets(b[3..]));
    GroupRoundTrip(b[0], b[1], b[2]);
    assert b[..3] == [b[0], b[1], b[2]];
  }

  /** A full group of 4 digits in front gives its 3 bytes in front. */
  lemma FromSextetsGroup(g: seq<Sextet>, rest: seq<Sextet>)
    requires |g| == 4
    ensures FromSextets(g + rest) ==
      [g[0] as int * 4 + g[1] as int / 16, g[1] as int % 16 * 16 + g[2] as int / 4, g[2] as int % 4 * 64 + g[3] as int] +
      FromSextets(rest)
  {
    assert (g + rest)[4..] == rest;
  }

  /** Decoding an encoding gives the bytes back. */
  lemma DecodeEncode(b: seq<byte>)
    ensures Decode(Encode(b)) == b
  {
    DigitsConcat(Chars(ToSextets(b)), Padding(|b|));
    DigitsOfChars(ToSextets(b));
    DigitsOfPadding(|b|);
    SextetsRoundTrip(b);
    var v := ToSextets(b);
    calc {
      Decode(Encode(b));
      FromSextets(Digits(Chars(v) + Padding(|b|)));
      FromSextets(Digits(Chars(v)) + Digits(Padding(|b|)));
      { assert v + [] == v; }
      FromSextets(v);
    }
  }

  /** RFC 4648 section 10's first vectors: "f" is "Zg==", "fo" is "Zm8=", "foo" is "Zm9v". */
  lemma EncodeVectors()
    ensures Encode([102]) == "Zg=="
    ensures Encode([102, 111]) == "Zm8="
    ensures Encode([102, 111, 111]) == "Zm9v"
  {
    assert ToSextets([102]) == [25, 32];
    assert ToSextets([102, 111]) == [25, 38, 60];
    assert ToSextets([102, 111, 111]) == [25, 38, 61, 47];
  }
}
