/** Strict UTF-8, as Python's `bytes.decode("utf-8")` and `str.encode("utf-8")` apply it. */
module Utf8 {
  import opened Wrappers

  type Byte = b: int | 0 <= b < 256
  type Bytes = seq<Byte>

  function EncodeChar(c: char): (r: Bytes)
    ensures 1 <= |r| <= 4
  {
    var n := c as int;
    if n < 0x80 then [n]
    else if n < 0x800 then [0xC0 + n / 64, 0x80 + n % 64]
    else if n < 0x1_0000 then [0xE0 + n / 4096, 0x80 + n / 64 % 64, 0x80 + n % 64]
    else [0xF0 + n / 262144, 0x80 + n / 4096 % 64, 0x80 + n / 64 % 64, 0x80 + n % 64]
  }

  function Encode(s: string): Bytes {
    if s == [] then [] else EncodeChar(s[0]) + Encode(s[1..])
  }

  lemma {:induction false} EncodedLength(s: string)
    ensures |Encode(s)| <= 4 * |s|
  {
    if s != [] { EncodedLength(s[1..]); }
  }

  predicate Continues(b: Byte) { 0x80 <= b < 0xC0 }

  /** The payload bits of a byte, its marker removed. */
  function Bits(b: Byte, marker: int): int {
    var n: int := b;
    n - marker
  }

  /** One scalar value and its byte length; overlong forms, surrogates and stray bytes are refused. */
  function DecodeOne(b: Bytes): (r: Option<(char, nat)>)
    requires b != []
    ensures r.Some? ==> 1 <= r.value.1 <= |b|
  {
    if b[0] < 0x80 then Some((b[0] as char, 1))
    else if 0xC2 <= b[0] < 0xE0 then
      if |b| >= 2 && Continues(b[1]) then Some(((Bits(b[0], 0xC0) * 64 + Bits(b[1], 0x80)) as char, 2)) else None
    else if 0xE0 <= b[0] < 0xF0 then
      if |b| >= 3 && Continues(b[1]) && Continues(b[2]) then
        var n := Bits(b[0], 0xE0) * 4096 + Bits(b[1], 0x80) * 64 + Bits(b[2], 0x80);
        if 0x800 <= n < 0xD800 || 0xE000 <= n then Some((n as char, 3)) else None
      else None
    else if 0xF0 <= b[0] < 0xF5 then
      if |b| >= 4 && Continues(b[1]) && Continues(b[2]) && Continues(b[3]) then
        var n := Bits(b[0], 0xF0) * 262144 + Bits(b[1], 0x80) * 4096 + Bits(b[2], 0x80) * 64 + Bits(b[3], 0x80);
        if 0x1_0000 <= n < 0x11_0000 then Some((n as char, 4)) else None
      else None
    else None
  }

  function Decode(b: Bytes): Option<string> {
    if b == [] then Some([])
    else
      match DecodeOne(b)
      case None => None
      case Some((c, k)) =>
        match Decode(b[k..])
        case None => None
        case Some(rest) => Some([c] + rest)
  }

  lemma {:induction false} DecodeOneEncoded(c: char, rest: Bytes)
    ensures DecodeOne(EncodeChar(c) + rest) == Some((c, |EncodeChar(c)|))
  {
    var n := c as int;
    var b := EncodeChar(c) + rest;
    if n < 0x80 {
      assert b[0] == n;
    } else if n < 0x800 {
      assert b[0] == 0xC0 + n / 64 && b[1] == 0x80 + n % 64;
    } else if n < 0x1_0000 {
      assert b[0] == 0xE0 + n / 4096 && b[1] == 0x80 + n / 64 % 64 && b[2] == 0x80 + n % 64;
      assert n / 4096 == n / 64 / 64;
    } else {
      assert b[0] == 0xF0 + n / 262144 && b[1] == 0x80 + n / 4096 % 64;
      assert b[2] == 0x80 + n / 64 % 64 && b[3] == 0x80 + n % 64;
      assert n / 4096 == n / 64 / 64 && n / 262144 == n / 4096 / 64;
    }
  }

  /** Base-64 digits are read back from the number they make. */
  lemma {:induction false} ThreeDigits(x: nat, y: nat, z: nat)
    requires y < 64 && z < 64
    ensures var n := x * 4096 + y * 64 + z; n / 4096 == x && n / 64 % 64 == y && n % 64 == z
  {
    var n := x * 4096 + y * 64 + z;
    assert n / 64 == x * 64 + y;
    assert n / 4096 == n / 64 / 64;
  }

  lemma {:induction false} FourDigits(w: nat, x: nat, y: nat, z: nat)
    requires x < 64 && y < 64 && z < 64
    ensures var n := w * 262144 + x * 4096 + y * 64 + z;
            n / 262144 == w && n / 4096 % 64 == x && n / 64 % 64 == y && n % 64 == z
  {
    var n := w * 262144 + x * 4096 + y * 64 + z;
    ThreeDigits(w * 64 + x, y, z);
    assert n / 262144 == n / 4096 / 64;
  }

  lemma {:induction false} EncodeDecodedOne(b: Bytes)
    requires b != [] && DecodeOne(b).Some?
    ensures var (c, k) := DecodeOne(b).value; EncodeChar(c) == b[..k]
  {
    var (c, k) := DecodeOne(b).value;
    if k == 3 {
      ThreeDigits(Bits(b[0], 0xE0), Bits(b[1], 0x80), Bits(b[2], 0x80));
    } else if k == 4 {
      FourDigits(Bits(b[0], 0xF0), Bits(b[1], 0x80), Bits(b[2], 0x80), Bits(b[3], 0x80));
    }
  }

  lemma {:induction false} EncodeCons(c: char, rest: string)
    ensures Encode([c] + rest) == EncodeChar(c) + Encode(rest)
  {
    assert ([c] + rest)[1..] == rest;
  }

  /** Text survives encoding. */
  lemma {:induction false} DecodeEncode(s: string)
    ensures Decode(Encode(s)) == Some(s)
  {
    if s != [] {
      var head, tail := EncodeChar(s[0]), Encode(s[1..]);
      DecodeOneEncoded(s[0], tail);
      assert (head + tail)[|head|..] == tail;
      DecodeEncode(s[1..]);
      assert s == [s[0]] + s[1..];
    }
  }

  lemma {:induction false} DecodedHead(b: Bytes) returns (c: char, k: nat)
    requires b != [] && Decode(b).Some?
    ensures 0 < k <= |b| && EncodeChar(c) == b[..k]
    ensures Decode(b[k..]).Some? && Decode(b).value == [c] + Decode(b[k..]).value
  {
    EncodeDecodedOne(b);
    var one := DecodeOne(b).value;
    c, k := one.0, one.1;
  }

  /** Bytes that decode at all come back unchanged. */
  lemma {:induction false} EncodeDecode(b: Bytes)
    requires Decode(b).Some?
    ensures Encode(Decode(b).value) == b
  {
    if b != [] {
      var c, k := DecodedHead(b);
      var rest := Decode(b[k..]).value;
      EncodeDecode(b[k..]);
      EncodeCons(c, rest);
      calc {
        Encode(Decode(b).value);
        Encode([c] + rest);
        EncodeChar(c) + Encode(rest);
        b[..k] + b[k..];
        b;
      }
    }
  }
}
