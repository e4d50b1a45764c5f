/** UTF-8 (section 3 of RFC 3629) as far as the server depends on it: the byte limits of
    identifiers and texts, and the cut to a whole-character prefix. */
module Utf8 {
  import opened Basics

  newtype byte = b: int | 0 <= b < 256

  function EncodeChar(c: char): (bytes: seq<byte>)
    ensures 1 <= |bytes| <= 4
  {
    var n := c as int;
    if n < 0x80 then [n as byte]
    else if n < 0x800 then [(0xC0 + n / 64) as byte, (0x80 + n % 64) as byte]
    else if n < 0x10000 then
      [(0xE0 + n / 4096) as byte, (0x80 + n / 64 % 64) as byte, (0x80 + n % 64) as byte]
    else
      [(0xF0 + n / 262144) as byte, (0x80 + n / 4096 % 64) as byte,
       (0x80 + n / 64 % 64) as byte, (0x80 + n % 64) as byte]
  }

  function Encode(s: string): (bytes: seq<byte>)
    ensures |bytes| >= |s|
  {
    if s == [] then [] else EncodeChar(s[0]) + Encode(s[1..])
  }

  predicate IsTail(b: byte) {
    0x80 <= b < 0xC0
  }

  function Payload(b: byte): int {
    b as int % 64
  }

  // A code point some character has: the surrogates 0xD800 to 0xDFFF are not characters.
  predicate IsScalar(n: int) {
    0 <= n < 0xD800 || 0xE000 <= n < 0x110000
  }

  // The number of bytes of the character that starts the text; 0 when no character does.
  // Overlong forms and surrogates are no characters.
  function LeadLength(b: seq<byte>): (k: nat)
    ensures k <= |b| && k <= 4
    ensures k > 0 ==> IsScalar(CodePoint(b, k))
  {
    if b == [] then 0
    else if b[0] < 0x80 then 1
    else if 0xC2 <= b[0] < 0xE0 && |b| >= 2 && IsTail(b[1]) then 2
    else if 0xE0 <= b[0] < 0xF0 && |b| >= 3 && IsTail(b[1]) && IsTail(b[2])
            && CodePoint(b, 3) >= 0x800 && IsScalar(CodePoint(b, 3)) then 3
    else if 0xF0 <= b[0] < 0xF5 && |b| >= 4 && IsTail(b[1]) && IsTail(b[2]) && IsTail(b[3])
            && CodePoint(b, 4) >= 0x10000 && IsScalar(CodePoint(b, 4)) then 4
    else 0
  }

  function CodePoint(b: seq<byte>, k: nat): int
    requires 1 <= k <= 4 && k <= |b|
  {
    if k == 1 then b[0] as int
    else if k == 2 then (b[0] as int - 0xC0) * 64 + Payload(b[1])
    else if k == 3 then (b[0] as int - 0xE0) * 4096 + Payload(b[1]) * 64 + Payload(b[2])
    else (b[0] as int - 0xF0) * 262144 + Payload(b[1]) * 4096 + Payload(b[2]) * 64 + Payload(b[3])
  }

  // bytes.decode("utf-8", errors="ignore"): bytes that start no character are skipped.
  function DecodeIgnoring(b: seq<byte>): string {
    if b == [] then []
    else
      var k := LeadLength(b);
      if k == 0 then DecodeIgnoring(b[1..])
      else [CodePoint(b, k) as char] + DecodeIgnoring(b[k..])
  }

  function Bytes(s: string): nat {
    |Encode(s)|
  }

  // _truncate_utf8
  function Truncate(value: string, limit: nat): string {
    var encoded := Encode(value);
    if |encoded| <= limit then value else DecodeIgnoring(encoded[..limit])
  }

  // ---------- What decoding does to an encoded text ----------

  lemma Base64Digits(n: nat)
    ensures n == (n / 64) * 64 + n % 64
    ensures n == (n / 4096) * 4096 + (n / 64 % 64) * 64 + n % 64
    ensures n == (n / 262144) * 262144 + (n / 4096 % 64) * 4096 + (n / 64 % 64) * 64 + n % 64
  {
    var m := n / 64;
    assert m / 64 == n / 4096 && m / 4096 == n / 262144;
    assert m / 64 / 64 == m / 4096;
  }

  lemma LeadOfChar(c: char, rest: seq<byte>)
    ensures LeadLength(EncodeChar(c) + rest) == |EncodeChar(c)|
    ensures CodePoint(EncodeChar(c) + rest, |EncodeChar(c)|) == c as int
  {
    hide EncodeChar, LeadLength;
    LeadAlone(c);
    LeadOfPrefix(EncodeChar(c), rest);
  }

  lemma LeadAlone(c: char)
    ensures LeadLength(EncodeChar(c)) == |EncodeChar(c)| && CodePoint(EncodeChar(c), |EncodeChar(c)|) == c as int
  {
    hide EncodeChar, LeadLength, CodePoint;
    if c as int < 0x800 {
      LeadOfShort(c);
    } else if c as int < 0x10000 {
      LeadOfThree(c);
    } else {
      LeadOfFour(c);
    }
  }

  lemma LeadOfShort(c: char)
    requires c as int < 0x800
    ensures LeadLength(EncodeChar(c)) == |EncodeChar(c)| && CodePoint(EncodeChar(c), |EncodeChar(c)|) == c as int
  {
  }

  lemma LeadOfThree(c: char)
    requires 0x800 <= c as int < 0x10000
    ensures LeadLength(EncodeChar(c)) == |EncodeChar(c)| && CodePoint(EncodeChar(c), |EncodeChar(c)|) == c as int
  {
    hide LeadLength, Payload, IsTail;
    var n := c as int;
    Base64Digits(n);
    TailByte(n / 64 % 64);
    TailByte(n % 64);
    ThreeIsLead(EncodeChar(c));
  }

  lemma LeadOfFour(c: char)
    requires 0x10000 <= c as int
    ensures LeadLength(EncodeChar(c)) == |EncodeChar(c)| && CodePoint(EncodeChar(c), |EncodeChar(c)|) == c as int
  {
    hide LeadLength, Payload, IsTail;
    var n := c as int;
    Base64Digits(n);
    TailByte(n / 4096 % 64);
    TailByte(n / 64 % 64);
    TailByte(n % 64);
    FourIsLead(EncodeChar(c));
  }

  lemma TailByte(x: int)
    requires 0 <= x < 64
    ensures IsTail((0x80 + x) as byte) && Payload((0x80 + x) as byte) == x
  {
  }

  lemma ThreeIsLead(b: seq<byte>)
    requires |b| == 3 && 0xE0 <= b[0] < 0xF0 && IsTail(b[1]) && IsTail(b[2])
    requires CodePoint(b, 3) >= 0x800 && IsScalar(CodePoint(b, 3))
    ensures LeadLength(b) == 3
  {
    hide CodePoint, IsTail, IsScalar;
  }

  lemma FourIsLead(b: seq<byte>)
    requires |b| == 4 && 0xF0 <= b[0] < 0xF5 && IsTail(b[1]) && IsTail(b[2]) && IsTail(b[3])
    requires CodePoint(b, 4) >= 0x10000 && IsScalar(CodePoint(b, 4))
    ensures LeadLength(b) == 4
  {
    hide CodePoint, IsTail, IsScalar;
  }

  lemma LeadOfPrefix(e: seq<byte>, rest: seq<byte>)
    requires 1 <= |e| <= 4 && LeadLength(e) == |e|
    ensures LeadLength(e + rest) == |e| && CodePoint(e + rest, |e|) == CodePoint(e, |e|)
  {
    hide IsScalar, Payload;
    var b := e + rest;
    assert forall i :: 0 <= i < |e| ==> b[i] == e[i];
    assert CodePoint(b, |e|) == CodePoint(e, |e|);
  }

  // A character cut short decodes to nothing: its first byte asks for more bytes than are
  // there, and the other bytes start no character.
  lemma {:induction false} CutCharDecodesToNothing(c: char, k: nat)
    requires k < |EncodeChar(c)|
    ensures DecodeIgnoring(EncodeChar(c)[..k]) == []
  {
    var b := EncodeChar(c)[..k];
    if k >= 1 {
      assert LeadLength(b) == 0;
      TailsDecodeToNothing(b[1..]);
    }
  }

  lemma {:induction false} TailsDecodeToNothing(b: seq<byte>)
    requires forall i :: 0 <= i < |b| ==> IsTail(b[i])
    ensures DecodeIgnoring(b) == []
  {
    if b != [] {
      assert LeadLength(b) == 0;
      TailsDecodeToNothing(b[1..]);
    }
  }

  lemma EncodeStep(s: string, k: nat)
    requires s != [] && 1 <= k <= |s|
    ensures Encode(s) == EncodeChar(s[0]) + Encode(s[1..])
    ensures Bytes(s[..k]) == |EncodeChar(s[0])| + Bytes(s[1..][..k - 1])
  {
    hide EncodeChar;
    assert s[..k][1..] == s[1..][..k - 1] && s[..k][0] == s[0];
  }

  lemma DecodeStep(c: char, rest: seq<byte>)
    ensures DecodeIgnoring(EncodeChar(c) + rest) == [c] + DecodeIgnoring(rest)
  {
    hide EncodeChar, LeadLength, CodePoint;
    LeadOfChar(c, rest);
    assert (EncodeChar(c) + rest)[|EncodeChar(c)|..] == rest;
  }

  lemma {:induction false} DecodeOfCut(s: string, limit: nat) returns (k: nat)
    requires limit <= Bytes(s)
    ensures k <= |s| && DecodeIgnoring(Encode(s)[..limit]) == s[..k]
    ensures Bytes(s[..k]) <= limit
    ensures k < |s| ==> limit < Bytes(s[..k + 1])
  {
    hide EncodeChar, DecodeIgnoring, Encode;
    if s == [] {
      k := 0;
      NothingEncoded();
      return;
    }
    var first, rest := EncodeChar(s[0]), Encode(s[1..]);
    EncodeStep(s, 1);
    if limit < |first| {
      assert Encode(s)[..limit] == first[..limit];
      CutCharDecodesToNothing(s[0], limit);
      k := 0;
      NothingEncoded();
    } else {
      var more := DecodeOfCut(s[1..], limit - |first|);
      assert Encode(s)[..limit] == first + rest[..limit - |first|];
      DecodeStep(s[0], rest[..limit - |first|]);
      k := more + 1;
      EncodeStep(s, k);
      assert s[..k] == [s[0]] + s[1..][..more];
      if k < |s| {
        EncodeStep(s, k + 1);
      }
    }
  }

  lemma NothingEncoded()
    ensures Encode([]) == [] && DecodeIgnoring([]) == [] && Bytes([]) == 0
  {
  }

  lemma {:induction false} BytesGrow(s: string, i: nat, j: nat)
    requires i <= j <= |s|
    ensures Bytes(s[..i]) <= Bytes(s[..j])
  {
    if i > 0 {
      BytesGrow(s[1..], i - 1, j - 1);
      assert s[..i][1..] == s[1..][..i - 1] && s[..j][1..] == s[1..][..j - 1];
    }
  }

  // The cut is the longest prefix of whole characters that fits: it is s[..k], it fits, and no
  // longer prefix does.
  lemma TruncateIsLongestPrefix(s: string, limit: nat) returns (k: nat)
    ensures k <= |s| && Truncate(s, limit) == s[..k]
    ensures Bytes(Truncate(s, limit)) <= limit
    ensures forall j :: k < j <= |s| ==> Bytes(s[..j]) > limit
  {
    if Bytes(s) <= limit {
      k := |s|;
      assert s[..k] == s;
    } else {
      k := DecodeOfCut(s, limit);
      forall j | k < j <= |s| ensures Bytes(s[..j]) > limit {
        BytesGrow(s, k + 1, j);
      }
    }
  }

  lemma {:induction false} BytesOfConcat(a: string, b: string)
    ensures Bytes(a + b) == Bytes(a) + Bytes(b)
  {
    if a == [] {
      assert a + b == b;
    } else {
      BytesOfConcat(a[1..], b);
      assert (a + b)[1..] == a[1..] + b;
    }
  }

  lemma {:induction false} BytesAtMostFour(s: string)
    ensures Bytes(s) <= 4 * |s|
  {
    if s != [] {
      BytesAtMostFour(s[1..]);
    }
  }

  lemma {:induction false} AsciiBytes(s: string)
    requires forall i :: 0 <= i < |s| ==> s[i] < '\U{80}'
    ensures Bytes(s) == |s|
  {
    if s != [] {
      AsciiBytes(s[1..]);
    }
  }
}
