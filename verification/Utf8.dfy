/** UTF-8 as the WHATWG Encoding Standard (section 8.1) encodes and decodes it. */
module Utf8 {

  type Byte = n: int | 0 <= n < 256

  const REPLACEMENT: char := 0xFFFD as char

  function EncodeChar(c: char): (bs: seq<Byte>)
    ensures 1 <= |bs| <= 4
    ensures c as int < 0x80 <==> bs[0] < 0x80
    ensures c as int < 0x80 ==> bs == [c as int]
  {
    var n := c as int;
    if n < 0x80 then [n]
    else if n < 0x800 then [0xC0 + n / 64, 0x80 + n % 64]
    else if n < 0x10000 then [0xE0 + n / 4096, 0x80 + n / 64 % 64, 0x80 + n % 64]
    else [0xF0 + n / 262144, 0x80 + n / 4096 % 64, 0x80 + n / 64 % 64, 0x80 + n % 64]
  }

  function Encode(s: string): seq<Byte> {
    if s == "" then [] else EncodeChar(s[0]) + Encode(s[1..])
  }

  predicate Within(bs: seq<Byte>, i: nat, lo: int, hi: int) {
    i < |bs| && lo <= bs[i] <= hi
  }

  /** The next scalar value and how many bytes it takes. A malformed sequence gives U+FFFD and
      consumes its longest valid prefix, so the byte that broke it is read again. */
  function DecodeNext(bs: seq<Byte>): (r: (char, nat))
    requires bs != []
    ensures 1 <= r.1 <= |bs|
  {
    var lead: int := bs[0];
    if lead < 0x80 then (lead as char, 1)
    else if 0xC2 <= lead <= 0xDF then
      if Within(bs, 1, 0x80, 0xBF) then (((lead - 0xC0) * 64 + (bs[1] as int - 0x80)) as char, 2) else (REPLACEMENT, 1)
    else if 0xE0 <= lead <= 0xEF then
      if !Within(bs, 1, if lead == 0xE0 then 0xA0 else 0x80, if lead == 0xED then 0x9F else 0xBF) then (REPLACEMENT, 1)
      else if !Within(bs, 2, 0x80, 0xBF) then (REPLACEMENT, 2)
      else (((lead - 0xE0) * 4096 + (bs[1] as int - 0x80) * 64 + (bs[2] as int - 0x80)) as char, 3)
    else if 0xF0 <= lead <= 0xF4 then
      if !Within(bs, 1, if lead == 0xF0 then 0x90 else 0x80, if lead == 0xF4 then 0x8F else 0xBF) then (REPLACEMENT, 1)
      else if !Within(bs, 2, 0x80, 0xBF) then (REPLACEMENT, 2)
      else if !Within(bs, 3, 0x80, 0xBF) then (REPLACEMENT, 3)
      else (((lead - 0xF0) * 262144 + (bs[1] as int - 0x80) * 4096 + (bs[2] as int - 0x80) * 64 + (bs[3] as int - 0x80)) as char, 4)
    else (REPLACEMENT, 1)
  }

  function Decode(bs: seq<Byte>): string
    decreases |bs|
  {
    if bs == [] then "" else
      var (c, n) := DecodeNext(bs);
      [c] + Decode(bs[n..])
  }

  lemma DecodeTwoBytes(c: char, rest: seq<Byte>)
    requires 0x80 <= c as int < 0x800
    ensures DecodeNext(EncodeChar(c) + rest) == (c, 2)
  {
  }

  lemma DecodeThreeBytes(c: char, rest: seq<Byte>)
    requires 0x800 <= c as int < 0x10000
    ensures DecodeNext(EncodeChar(c) + rest) == (c, 3)
  {
    var n := c as int;
    var hi, lo := n / 64, n % 64;
    assert n / 4096 == hi / 64 && n == hi * 64 + lo;
    var bs := EncodeChar(c) + rest;
    assert bs[0] == 0xE0 + hi / 64 && bs[1] == 0x80 + hi % 64 && bs[2] == 0x80 + lo;
  }

  lemma LowDigits(n: int)
    requires 0 <= n
    ensures n % 4096 == n / 64 % 64 * 64 + n % 64
  {
    var q := n / 64;
    assert n == q / 64 * 4096 + q % 64 * 64 + n % 64;
  }

  lemma HighDigits(n: int)
    requires 0 <= n
    ensures n / 4096 == n / 262144 * 64 + n / 4096 % 64
  {
    var hi := n / 4096;
    assert n == hi / 64 * 262144 + hi % 64 * 4096 + n % 4096;
  }

  lemma DecodeFourBytes(c: char, rest: seq<Byte>)
    requires 0x10000 <= c as int
    ensures DecodeNext(EncodeChar(c) + rest) == (c, 4)
  {
    var n := c as int;
    LowDigits(n);
    HighDigits(n);
    var bs := EncodeChar(c) + rest;
    assert bs[0] == 0xF0 + n / 262144 && bs[1] == 0x80 + n / 4096 % 64;
    assert bs[2] == 0x80 + n / 64 % 64 && bs[3] == 0x80 + n % 64;
  }

  lemma DecodeNextEncodeChar(c: char, rest: seq<Byte>)
    ensures DecodeNext(EncodeChar(c) + rest) == (c, |EncodeChar(c)|)
  {
    var n := c as int;
    if 0x80 <= n < 0x800 {
      DecodeTwoBytes(c, rest);
    } else if 0x800 <= n < 0x10000 {
      DecodeThreeBytes(c, rest);
    } else if 0x10000 <= n {
      DecodeFourBytes(c, rest);
    }
  }

  /** Decoding what was encoded gives every string back. */
  lemma {:induction false} DecodeEncode(s: string)
    ensures Decode(Encode(s)) == s
  {
    if s != "" {
      var head, rest := EncodeChar(s[0]), Encode(s[1..]);
      DecodeNextEncodeChar(s[0], rest);
      assert (head + rest)[|head|..] == rest;
      DecodeEncode(s[1..]);
    }
  }

  predicate IsAscii(bs: seq<Byte>) {
    forall i :: 0 <= i < |bs| ==> bs[i] < 0x80
  }

  function AsciiText(bs: seq<Byte>): (s: string)
    requires IsAscii(bs)
    ensures |s| == |bs| && forall i :: 0 <= i < |s| ==> s[i] as int == bs[i]
  {
    seq(|bs|, i requires 0 <= i < |bs| => bs[i] as char)
  }

  lemma {:induction false} EncodeAscii(bs: seq<Byte>)
    requires IsAscii(bs)
    ensures Encode(AsciiText(bs)) == bs
  {
    if bs != [] {
      var s := AsciiText(bs);
      assert s[1..] == AsciiText(bs[1..]);
      EncodeAscii(bs[1..]);
    }
  }

  /** String.length of a string of scalar values: UTF-16 code units. */
  function Utf16Length(s: string): nat {
    if s == "" then 0 else (if s[0] as int < 0x10000 then 1 else 2) + Utf16Length(s[1..])
  }
}
