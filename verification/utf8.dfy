/** Bytes and the two text codecs the handler uses: `str.encode('utf-8')`,
    `bytes.decode('utf-8')` and `bytes.decode('ascii')`, all strict. */
module Utf8 {
  import opened Common

  newtype byte = x: int | 0 <= x < 256

  /** UTF-8 encoding of one Unicode scalar value (1 to 4 bytes). */
  function EncodeChar(c: char): (r: seq<byte>)
    ensures 1 <= |r| <= 4
    ensures c as int < 0x80 <==> |r| == 1
    ensures c as int < 0x80 ==> r[0] as int == c as int
    ensures c as int >= 0x80 ==> forall i | 0 <= i < |r| :: r[i] >= 0x80
  {
    var n := c as int;
    if n < 0x80 then [n as byte]
    else if n < 0x800 then [(0xC0 + n / 64) as byte, (0x80 + n % 64) as byte]
    else if n < 0x10000 then
      [(0xE0 + n / 4096) as byte, (0x80 + (n / 64) % 64) as byte, (0x80 + n % 64) as byte]
    else
      [(0xF0 + n / 0x40000) as byte, (0x80 + (n / 4096) % 64) as byte,
       (0x80 + (n / 64) % 64) as byte, (0x80 + n % 64) as byte]
  }

  /** `s.encode('utf-8')`. */
  function Encode(s: string): (r: seq<byte>)
    ensures |r| >= |s|
  {
    if s == [] then [] else EncodeChar(s[0]) + Encode(s[1..])
  }

  lemma {:induction false} EncodeAppend(a: string, b: string)
    ensures Encode(a + b) == Encode(a) + Encode(b)
  {
    if a == [] {
      assert a + b == b;
    } else {
      assert (a + b)[1..] == a[1..] + b;
      EncodeAppend(a[1..], b);
    }
  }

  /** A character other than `c` never encodes to a sequence holding the byte of the
      7-bit character `c`: encoded text is free of CR (or LF, or a space) exactly when
      the text is. */
  lemma {:induction false} EncodeAvoidsAscii(s: string, c: char)
    requires c as int < 0x80
    ensures (c as int) as byte in Encode(s) <==> c in s
  {
    if s != [] {
      EncodeAvoidsAscii(s[1..], c);
      assert s == [s[0]] + s[1..];
      var e := EncodeChar(s[0]);
      if s[0] as int >= 0x80 {
        assert (c as int) as byte !in e;
      }
    }
  }

  /** The encoding of a text whose first `k` characters are 7-bit starts with those
      characters as bytes. */
  lemma {:induction false} EncodeAsciiPrefix(s: string, k: nat)
    requires k <= |s| && forall i | 0 <= i < k :: s[i] as int < 0x80
    ensures k <= |Encode(s)| && forall i | 0 <= i < k :: Encode(s)[i] as int == s[i] as int
  {
    if k > 0 {
      EncodeAsciiPrefix(s[1..], k - 1);
      assert Encode(s) == EncodeChar(s[0]) + Encode(s[1..]);
    }
  }

  /** Whether a byte is a UTF-8 continuation byte (10xxxxxx). */
  predicate IsContinuation(b: byte) {
    0x80 <= b < 0xC0
  }

  /** Decodes the first UTF-8 sequence of `b`: the character and how many bytes it took,
      or `None` where the strict decoder raises (bad lead byte, missing or bad
      continuation, overlong form, surrogate, beyond U+10FFFF). */
  function DecodeOne(b: seq<byte>): (r: Option<(char, nat)>)
    requires |b| > 0
    ensures r.Some? ==> 1 <= r.value.1 <= |b| && r.value.1 <= 4
  {
    var b0 := b[0] as int;
    if b0 < 0x80 then Some((b0 as char, 1))
    else if 0xC2 <= b0 < 0xE0 then
      if |b| >= 2 && IsContinuation(b[1]) then
        Some((((b0 - 0xC0) * 64 + (b[1] as int - 0x80)) as char, 2))
      else None
    else if 0xE0 <= b0 < 0xF0 then
      if |b| >= 3 && IsContinuation(b[1]) && IsContinuation(b[2]) then
        var n := (b0 - 0xE0) * 4096 + (b[1] as int - 0x80) * 64 + (b[2] as int - 0x80);
        if n < 0x800 || (0xD800 <= n < 0xE000) then None else Some((n as char, 3))
      else None
    else if 0xF0 <= b0 < 0xF5 then
      if |b| >= 4 && IsContinuation(b[1]) && IsContinuation(b[2]) && IsContinuation(b[3]) then
        var n := (b0 - 0xF0) * 0x40000 + (b[1] as int - 0x80) * 4096
                 + (b[2] as int - 0x80) * 64 + (b[3] as int - 0x80);
        if n < 0x10000 || n > 0x10FFFF then None else Some((n as char, 4))
      else None
    else None
  }

  /** `b.decode('utf-8')`: `None` stands for the UnicodeDecodeError it raises. A
      decoded string has at most as many characters as there are bytes, and is
      empty only for empty input. */
  function Decode(b: seq<byte>): (r: Option<string>)
    ensures r.Some? ==> |r.value| <= |b| && (r.value == [] <==> b == [])
    decreases |b|
  {
    if b == [] then Some([])
    else match DecodeOne(b)
      case None => None
      case Some((c, k)) =>
        match Decode(b[k..])
        case None => None
        case Some(rest) => Some([c] + rest)
  }

  lemma DecodeTwo(n: int, b: seq<byte>)
    requires 0x80 <= n < 0x800 && |b| >= 2
    requires b[0] as int == 0xC0 + n / 64 && b[1] as int == 0x80 + n % 64
    ensures DecodeOne(b) == Some((n as char, 2))
  {
    assert (n / 64) * 64 + n % 64 == n;
  }

  lemma DecodeThree(n: int, b: seq<byte>)
    requires 0x800 <= n < 0x10000 && !(0xD800 <= n < 0xE000) && |b| >= 3
    requires b[0] as int == 0xE0 + n / 4096
    requires b[1] as int == 0x80 + (n / 64) % 64 && b[2] as int == 0x80 + n % 64
    ensures DecodeOne(b) == Some((n as char, 3))
  {
    assert (n / 4096) * 64 + (n / 64) % 64 == n / 64;
    assert (n / 64) * 64 + n % 64 == n;
  }

  lemma DecodeFour(n: int, b: seq<byte>)
    requires 0x10000 <= n <= 0x10FFFF && |b| >= 4
    requires b[0] as int == 0xF0 + n / 0x40000
    requires b[1] as int == 0x80 + (n / 4096) % 64
    requires b[2] as int == 0x80 + (n / 64) % 64 && b[3] as int == 0x80 + n % 64
    ensures DecodeOne(b) == Some((n as char, 4))
  {
    assert (n / 0x40000) * 64 + (n / 4096) % 64 == n / 4096;
    assert (n / 4096) * 64 + (n / 64) % 64 == n / 64;
    assert (n / 64) * 64 + n % 64 == n;
  }

  /** The decoder reads back the bytes of one encoded character, whatever follows. */
  lemma DecodeOneEncodeChar(c: char, rest: seq<byte>)
    ensures DecodeOne(EncodeChar(c) + rest) == Some((c, |EncodeChar(c)|))
  {
    var n := c as int;
    var e := EncodeChar(c);
    var b := e + rest;
    assert forall i | 0 <= i < |e| :: b[i] == e[i];
    if n < 0x80 {
    } else if n < 0x800 {
      DecodeTwo(n, b);
    } else if n < 0x10000 {
      DecodeThree(n, b);
    } else {
      DecodeFour(n, b);
    }
  }

  /** Decoding undoes encoding: every string survives `encode('utf-8')` followed by
      `decode('utf-8')`. */
  lemma {:induction false} DecodeEncode(s: string)
    ensures Decode(Encode(s)) == Some(s)
  {
    if s != [] {
      var e := EncodeChar(s[0]);
      DecodeOneEncodeChar(s[0], Encode(s[1..]));
      assert Encode(s)[|e|..] == Encode(s[1..]);
      DecodeEncode(s[1..]);
      assert s == [s[0]] + s[1..];
    }
  }

  /** Euclidean division by a power of 64 pins down quotient and remainder. */
  lemma DivMod64(n: int, q: int, r: int)
    requires 0 <= r < 64 && n == q * 64 + r
    ensures n / 64 == q && n % 64 == r
  {
  }

  lemma DivMod4096(n: int, q: int, r: int)
    requires 0 <= r < 4096 && n == q * 4096 + r
    ensures n / 4096 == q && n % 4096 == r
  {
  }

  lemma DivMod40000(n: int, q: int, r: int)
    requires 0 <= r < 0x40000 && n == q * 0x40000 + r
    ensures n / 0x40000 == q && n % 0x40000 == r
  {
  }

  lemma EncodeTwoOf(n: int, x: int, y: int)
    requires 0x80 <= n < 0x800 && 0 <= y < 64 && n == x * 64 + y
    ensures EncodeChar(n as char) == [(0xC0 + x) as byte, (0x80 + y) as byte]
  {
    DivMod64(n, x, y);
  }

  lemma EncodeThreeOf(n: int, x: int, y: int, z: int)
    requires 0x800 <= n < 0x10000 && !(0xD800 <= n < 0xE000)
    requires 0 <= y < 64 && 0 <= z < 64 && n == x * 4096 + y * 64 + z
    ensures EncodeChar(n as char) == [(0xE0 + x) as byte, (0x80 + y) as byte, (0x80 + z) as byte]
  {
    DivMod64(n, x * 64 + y, z);
    DivMod64(n / 64, x, y);
    DivMod4096(n, x, y * 64 + z);
  }

  lemma EncodeFourOf(n: int, w: int, x: int, y: int, z: int)
    requires 0x10000 <= n <= 0x10FFFF
    requires 0 <= x < 64 && 0 <= y < 64 && 0 <= z < 64
    requires n == w * 0x40000 + x * 4096 + y * 64 + z
    ensures EncodeChar(n as char)
         == [(0xF0 + w) as byte, (0x80 + x) as byte, (0x80 + y) as byte, (0x80 + z) as byte]
  {
    DivMod64(n, w * 4096 + x * 64 + y, z);
    DivMod64(n / 64, w * 64 + x, y);
    DivMod4096(n, w * 64 + x, y * 64 + z);
    DivMod64(n / 4096, w, x);
    DivMod40000(n, w, x * 4096 + y * 64 + z);
  }

  /** The decoder accepts the first bytes only when they are the encoding of the
      character it returns. */
  lemma DecodeOneSound(b: seq<byte>)
    requires |b| > 0 && DecodeOne(b).Some?
    ensures EncodeChar(DecodeOne(b).value.0) == b[..DecodeOne(b).value.1]
  {
    var b0 := b[0] as int;
    if b0 < 0x80 {
    } else if b0 < 0xE0 {
      EncodeTwoOf((b0 - 0xC0) * 64 + (b[1] as int - 0x80), b0 - 0xC0, b[1] as int - 0x80);
    } else if b0 < 0xF0 {
      EncodeThreeOf((b0 - 0xE0) * 4096 + (b[1] as int - 0x80) * 64 + (b[2] as int - 0x80),
                    b0 - 0xE0, b[1] as int - 0x80, b[2] as int - 0x80);
    } else {
      EncodeFourOf((b0 - 0xF0) * 0x40000 + (b[1] as int - 0x80) * 4096
                   + (b[2] as int - 0x80) * 64 + (b[3] as int - 0x80),
                   b0 - 0xF0, b[1] as int - 0x80, b[2] as int - 0x80, b[3] as int - 0x80);
    }
  }

  /** Decoding is strict: it succeeds only on the encoding of the text it returns. */
  lemma {:induction false} DecodeSound(b: seq<byte>)
    requires Decode(b).Some?
    ensures Encode(Decode(b).value) == b
    decreases |b|
  {
    if b != [] {
      var c, k, rest := DecodeStep(b);
      DecodeSound(b[k..]);
      Reassemble(b, c, k, rest);
    }
  }

  /** One step of a successful decoding: the encoding of a first character taking
      `k` bytes, then a successful decoding of the rest. */
  lemma DecodeStep(b: seq<byte>) returns (c: char, k: nat, rest: string)
    requires b != [] && Decode(b).Some?
    ensures 1 <= k <= |b| && EncodeChar(c) == b[..k]
    ensures Decode(b[k..]) == Some(rest) && Decode(b).value == [c] + rest
  {
    c, k := DecodeOne(b).value.0, DecodeOne(b).value.1;
    rest := Decode(b[k..]).value;
    DecodeOneSound(b);
  }

  lemma Reassemble(b: seq<byte>, c: char, k: nat, rest: string)
    requires k <= |b| && EncodeChar(c) == b[..k] && Encode(rest) == b[k..]
    ensures Encode([c] + rest) == b
  {
    EncodeCons(c, rest);
    assert b == b[..k] + b[k..];
  }

  lemma EncodeCons(c: char, rest: string)
    ensures Encode([c] + rest) == EncodeChar(c) + Encode(rest)
  {
    assert ([c] + rest)[1..] == rest;
  }

  /** The bytes that decode are exactly the UTF-8 encodings. */
  lemma DecodeExactly(b: seq<byte>)
    ensures Decode(b).Some? <==> exists s :: Encode(s) == b
  {
    if Decode(b).Some? {
      DecodeSound(b);
    }
    if s :| Encode(s) == b {
      DecodeEncode(s);
    }
  }

  /** Whether every byte is 7-bit clean. */
  predicate IsAscii(b: seq<byte>) {
    forall i | 0 <= i < |b| :: b[i] < 0x80
  }

  /** `b.decode('ascii')`: `None` stands for the UnicodeDecodeError it raises on any
      byte 0x80 or above. */
  function AsciiDecode(b: seq<byte>): (r: Option<string>)
    ensures r.Some? <==> IsAscii(b)
    ensures r.Some? ==> |r.value| == |b| && forall i | 0 <= i < |b| :: r.value[i] as int == b[i] as int
  {
    if IsAscii(b) then Some(seq(|b|, i requires 0 <= i < |b| => b[i] as int as char)) else None
  }

  /** The ASCII and UTF-8 decoders agree on 7-bit clean input. */
  lemma {:induction false} AsciiIsUtf8(b: seq<byte>)
    requires IsAscii(b)
    ensures Decode(b) == AsciiDecode(b)
  {
    if b != [] {
      AsciiIsUtf8(b[1..]);
      var tail := AsciiDecode(b[1..]).value;
      assert AsciiDecode(b).value == [b[0] as int as char] + tail;
    }
  }
}
