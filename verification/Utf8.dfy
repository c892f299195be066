/** UTF-8 (RFC 3629): the bytes of a text, and how many there are. */
module Utf8 {

  /** Section 3: the number of leading bits set in the first byte says how many bytes there are. */
  function EncodeChar(c: char): seq<int> {
    var n := c as int;
    if n < 0x80 then [n]
    else if n < 0x800 then [0xC0 + n / 0x40, 0x80 + n % 0x40]
    else if n < 0x1_0000 then [0xE0 + n / 0x1000, 0x80 + n / 0x40 % 0x40, 0x80 + n % 0x40]
    else [0xF0 + n / 0x4_0000, 0x80 + n / 0x1000 % 0x40, 0x80 + n / 0x40 % 0x40, 0x80 + n % 0x40]
  }

  /** `s.encode("utf-8")`. */
  function Encode(s: string): seq<int> { if s == "" then [] else EncodeChar(s[0]) + Encode(s[1..]) }

  /** Bytes of the encoding. */
  function Length(s: string): nat {
    if s == "" then 0
    else
      var n := s[0] as int;
      (if n < 0x80 then 1 else if n < 0x800 then 2 else if n < 0x1_0000 then 3 else 4) + Length(s[1..])
  }

  lemma {:induction false} LengthCounts(s: string)
    ensures Length(s) == |Encode(s)|
  {
    if s != "" {
      LengthCounts(s[1..]);
    }
  }

  /** The bytes a character starting with this byte takes. */
  function Width(first: int): nat { if first < 0x80 then 1 else if first < 0xE0 then 2 else if first < 0xF0 then 3 else 4 }

  /** The code point that the bytes ahead stand for, and the bytes after it. */
  function DecodeFirst(b: seq<int>): (int, seq<int>)
    requires b != [] && Width(b[0]) <= |b|
  {
    var k := Width(b[0]);
    var n := if k == 1 then b[0]
             else if k == 2 then (b[0] - 0xC0) * 0x40 + (b[1] - 0x80)
             else if k == 3 then (b[0] - 0xE0) * 0x1000 + (b[1] - 0x80) * 0x40 + (b[2] - 0x80)
             else (b[0] - 0xF0) * 0x4_0000 + (b[1] - 0x80) * 0x1000 + (b[2] - 0x80) * 0x40 + (b[3] - 0x80);
    (n, b[k..])
  }

  lemma Digits(n: nat)
    requires n < 0x11_0000
    ensures n == n / 0x40 * 0x40 + n % 0x40
    ensures n / 0x40 == n / 0x1000 * 0x40 + n / 0x40 % 0x40
    ensures n / 0x1000 == n / 0x4_0000 * 0x40 + n / 0x1000 % 0x40
    ensures n / 0x4_0000 < 5
  {
  }

  /** Every character is encoded in bytes that give it back, with as many bytes as its first one announces. */
  lemma CharReadsBack(c: char, rest: seq<int>)
    ensures var b := EncodeChar(c) + rest;
            Width(b[0]) == |EncodeChar(c)| && DecodeFirst(b) == (c as int, rest)
    ensures forall k | 0 <= k < |EncodeChar(c)| :: 0 <= EncodeChar(c)[k] < 0x100
  {
    Digits(c as int);
    var e := EncodeChar(c);
    assert (e + rest)[|e|..] == rest;
  }
}
