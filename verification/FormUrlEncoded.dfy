/** application/x-www-form-urlencoded: the serializer (section 5.2), the parser (section 5.1) and
    the list operations of URLSearchParams (section 6.2) of the WHATWG URL Standard. */
module FormUrlEncoded {
  import opened Prelude
  import opened Utf8

  datatype Pair = Pair(name: string, value: string)

  const AMPERSAND: Byte := 0x26
  const EQUALS: Byte := 0x3D
  const PERCENT: Byte := 0x25
  const PLUS: Byte := 0x2B
  const SPACE: Byte := 0x20

  // ----- Component encoding -----

  /** The bytes outside the application/x-www-form-urlencoded percent-encode set. */
  predicate IsUnreserved(b: Byte) {
    0x30 <= b <= 0x39 || 0x41 <= b <= 0x5A || 0x61 <= b <= 0x7A
    || b == 0x2A || b == 0x2D || b == 0x2E || b == 0x5F
  }

  function HexDigit(n: int): Byte
    requires 0 <= n < 16
  {
    if n < 10 then 0x30 + n else 0x37 + n
  }

  function HexValue(b: Byte): Option<int> {
    if 0x30 <= b <= 0x39 then Some(b - 0x30)
    else if 0x41 <= b <= 0x46 then Some(b - 0x37)
    else if 0x61 <= b <= 0x66 then Some(b - 0x57)
    else None
  }

  function EncodeByte(b: Byte): seq<Byte> {
    if IsUnreserved(b) then [b]
    else if b == SPACE then [PLUS]
    else [PERCENT, HexDigit(b / 16), HexDigit(b % 16)]
  }

  predicate IsUpperHex(b: Byte) { 0x30 <= b <= 0x39 || 0x41 <= b <= 0x46 }

  /** An escaped byte is written as a percent sign and two upper-case hexadecimal digits of its value. */
  lemma EscapedByte(b: Byte)
    requires !IsUnreserved(b) && b != SPACE
    ensures
      var e := EncodeByte(b);
      |e| == 3 && e[0] == PERCENT && IsUpperHex(e[1]) && IsUpperHex(e[2])
      && HexValue(e[1]).Some? && HexValue(e[2]).Some? && HexValue(e[1]).value * 16 + HexValue(e[2]).value == b
  {
  }

  function EncodeBytes(bs: seq<Byte>): seq<Byte> {
    if bs == [] then [] else EncodeByte(bs[0]) + EncodeBytes(bs[1..])
  }

  function PlusToSpace(bs: seq<Byte>): (r: seq<Byte>)
    ensures |r| == |bs| && forall i :: 0 <= i < |bs| ==> r[i] == if bs[i] == PLUS then SPACE else bs[i]
  {
    seq(|bs|, i requires 0 <= i < |bs| => if bs[i] == PLUS then SPACE else bs[i])
  }

  /** Percent-decoding keeps a '%' that is not followed by two hexadecimal digits. */
  function PercentDecode(bs: seq<Byte>): seq<Byte>
    decreases |bs|
  {
    if bs == [] then []
    else if bs[0] == PERCENT && |bs| >= 3 && HexValue(bs[1]).Some? && HexValue(bs[2]).Some? then
      [HexValue(bs[1]).value * 16 + HexValue(bs[2]).value] + PercentDecode(bs[3..])
    else [bs[0]] + PercentDecode(bs[1..])
  }

  function EncodeComponent(s: string): seq<Byte> {
    EncodeBytes(Encode(s))
  }

  function DecodeComponent(bs: seq<Byte>): string {
    Decode(PercentDecode(PlusToSpace(bs)))
  }

  /** The bytes an encoded component can hold: no '&', '=', '#' or '?' among them. */
  predicate IsComponentByte(b: Byte) {
    IsUnreserved(b) || b == PLUS || b == PERCENT
  }

  lemma {:induction false} EncodedBytesAreSafe(bs: seq<Byte>)
    ensures forall b :: b in EncodeBytes(bs) ==> IsComponentByte(b)
  {
    if bs != [] {
      EncodedBytesAreSafe(bs[1..]);
    }
  }

  lemma DecodeEncodedByte(b: Byte, rest: seq<Byte>)
    ensures PercentDecode(PlusToSpace(EncodeByte(b) + rest)) == [b] + PercentDecode(PlusToSpace(rest))
  {
    var whole := PlusToSpace(EncodeByte(b) + rest);
    assert whole[|EncodeByte(b)|..] == PlusToSpace(rest);
    if !IsUnreserved(b) && b != SPACE {
      assert whole[0] == PERCENT && whole[1] == HexDigit(b / 16) && whole[2] == HexDigit(b % 16);
      assert HexValue(whole[1]) == Some(b / 16) && HexValue(whole[2]) == Some(b % 16);
    }
  }

  lemma {:induction false} DecodeEncodedBytes(bs: seq<Byte>)
    ensures PercentDecode(PlusToSpace(EncodeBytes(bs))) == bs
  {
    if bs != [] {
      DecodeEncodedByte(bs[0], EncodeBytes(bs[1..]));
      DecodeEncodedBytes(bs[1..]);
    }
  }

  /** Any text survives a component round trip, whatever separators or escapes it contains. */
  lemma ComponentRoundTrip(s: string)
    ensures DecodeComponent(EncodeComponent(s)) == s
    ensures forall b :: b in EncodeComponent(s) ==> IsComponentByte(b)
  {
    DecodeEncodedBytes(Encode(s));
    DecodeEncode(s);
    EncodedBytesAreSafe(Encode(s));
  }

  // ----- Lists of pairs -----

  function SerializePair(p: Pair): seq<Byte> {
    EncodeComponent(p.name) + [EQUALS] + EncodeComponent(p.value)
  }

  function SerializeBytes(pairs: seq<Pair>): seq<Byte> {
    if pairs == [] then []
    else if |pairs| == 1 then SerializePair(pairs[0])
    else SerializePair(pairs[0]) + [AMPERSAND] + SerializeBytes(pairs[1..])
  }

  /** Index of the first occurrence of `b`, or the length when there is none. */
  function IndexOf<T(==)>(s: seq<T>, b: T): (i: nat)
    ensures i <= |s| && b !in s[..i] && (i < |s| ==> s[i] == b)
  {
    if s == [] || s[0] == b then 0 else
      var i := 1 + IndexOf(s[1..], b);
      assert s[..i] == [s[0]] + s[1..][..i - 1];
      i
  }

  function ParsePair(piece: seq<Byte>): Pair {
    var i := IndexOf(piece, EQUALS);
    if i < |piece| then Pair(DecodeComponent(piece[..i]), DecodeComponent(piece[i + 1..]))
    else Pair(DecodeComponent(piece), DecodeComponent([]))
  }

  /** Splits on '&' and skips empty pieces. */
  function ParseBytes(bs: seq<Byte>): seq<Pair>
    decreases |bs|
  {
    if bs == [] then [] else
      var i := IndexOf(bs, AMPERSAND);
      var rest := if i < |bs| then ParseBytes(bs[i + 1..]) else [];
      if i == 0 then rest else [ParsePair(bs[..i])] + rest
  }

  lemma IndexOfIsFirst<T>(s: seq<T>, b: T, i: nat)
    requires i <= |s| && b !in s[..i] && (i < |s| ==> s[i] == b)
    ensures IndexOf(s, b) == i
  {
    var k := IndexOf(s, b);
    forall j | 0 <= j < i
      ensures s[j] != b
    {
      assert s[j] == s[..i][j];
    }
    forall j | 0 <= j < k
      ensures s[j] != b
    {
      assert s[j] == s[..k][j];
    }
  }

  lemma ParseSerializedPair(p: Pair)
    ensures ParsePair(SerializePair(p)) == p
    ensures AMPERSAND !in SerializePair(p) && SerializePair(p) != []
  {
    var name, value := EncodeComponent(p.name), EncodeComponent(p.value);
    var piece := SerializePair(p);
    ComponentRoundTrip(p.name);
    ComponentRoundTrip(p.value);
    assert piece[..|name|] == name && piece[|name| + 1..] == value;
    IndexOfIsFirst(piece, EQUALS, |name|);
  }

  lemma {:induction false} ParseSerializedBytes(pairs: seq<Pair>)
    ensures ParseBytes(SerializeBytes(pairs)) == pairs
  {
    if pairs != [] {
      var head, bs := SerializePair(pairs[0]), SerializeBytes(pairs);
      ParseSerializedPair(pairs[0]);
      assert bs[..|head|] == head;
      IndexOfIsFirst(bs, AMPERSAND, |head|);
      if |pairs| == 1 {
        assert pairs == [pairs[0]];
      } else {
        assert bs[|head| + 1..] == SerializeBytes(pairs[1..]);
        ParseSerializedBytes(pairs[1..]);
      }
    }
  }

  predicate IsQueryByte(b: Byte) {
    IsComponentByte(b) || b == AMPERSAND || b == EQUALS
  }

  lemma {:induction false} SerializedBytesAreSafe(pairs: seq<Pair>)
    ensures forall b :: b in SerializeBytes(pairs) ==> IsQueryByte(b)
    ensures SerializeBytes(pairs) == [] <==> pairs == []
  {
    if pairs != [] {
      ComponentRoundTrip(pairs[0].name);
      ComponentRoundTrip(pairs[0].value);
      if |pairs| > 1 {
        SerializedBytesAreSafe(pairs[1..]);
      }
    }
  }

  lemma SerializedIsAscii(pairs: seq<Pair>)
    ensures IsAscii(SerializeBytes(pairs))
  {
    var bs := SerializeBytes(pairs);
    SerializedBytesAreSafe(pairs);
    forall i | 0 <= i < |bs|
      ensures bs[i] < 0x80
    {
      assert bs[i] in bs && IsQueryByte(bs[i]);
    }
  }

  // ----- URLSearchParams -----

  /** URLSearchParams.toString. */
  function Serialize(pairs: seq<Pair>): string {
    SerializedIsAscii(pairs);
    AsciiText(SerializeBytes(pairs))
  }

  /** new URLSearchParams(text): one leading '?' is dropped before parsing. */
  function Parse(text: string): seq<Pair> {
    ParseBytes(Encode(if text != "" && text[0] == '?' then text[1..] else text))
  }

  /** URLSearchParams.get: the value of the first pair with that name. */
  function Get(pairs: seq<Pair>, name: string): Option<string> {
    if pairs == [] then None
    else if pairs[0].name == name then Some(pairs[0].value)
    else Get(pairs[1..], name)
  }

  /** URLSearchParams.set: overwrites the first pair with that name and drops the others, or appends. */
  function Set(pairs: seq<Pair>, name: string, value: string): seq<Pair> {
    if pairs == [] then [Pair(name, value)]
    else if pairs[0].name == name then [Pair(name, value)] + Filter(pairs[1..], (p: Pair) => p.name != name)
    else [pairs[0]] + Set(pairs[1..], name, value)
  }

  lemma {:induction false} GetFiltered(pairs: seq<Pair>, name: string, other: string)
    requires other != name
    ensures Get(Filter(pairs, (p: Pair) => p.name != name), other) == Get(pairs, other)
  {
    if pairs != [] {
      GetFiltered(pairs[1..], name, other);
    }
  }

  /** Reading back after `set` gives the new value for that name and leaves every other name alone. */
  lemma {:induction false} GetAfterSet(pairs: seq<Pair>, name: string, value: string, other: string)
    ensures Get(Set(pairs, name, value), other) == if other == name then Some(value) else Get(pairs, other)
  {
    if pairs != [] {
      if pairs[0].name == name {
        if other != name {
          GetFiltered(pairs[1..], name, other);
        }
      } else {
        GetAfterSet(pairs[1..], name, value, other);
      }
    }
  }

  function Named(name: string): Pair -> bool { (p: Pair) => p.name == name }

  function NotNamed(name: string): Pair -> bool { (p: Pair) => p.name != name }

  lemma {:induction false} NoneLeft(pairs: seq<Pair>, name: string)
    ensures Filter(Filter(pairs, (p: Pair) => p.name != name), Named(name)) == []
    ensures Filter(Filter(pairs, (p: Pair) => p.name != name), NotNamed(name)) == Filter(pairs, NotNamed(name))
  {
    if pairs != [] {
      NoneLeft(pairs[1..], name);
    }
  }

  /** After `set` the name occurs exactly once, and the other pairs are as they were, in their order. */
  lemma {:induction false} SetLeavesOne(pairs: seq<Pair>, name: string, value: string)
    ensures Filter(Set(pairs, name, value), Named(name)) == [Pair(name, value)]
    ensures Filter(Set(pairs, name, value), NotNamed(name)) == Filter(pairs, NotNamed(name))
  {
    if pairs == [] {
      assert [Pair(name, value)][1..] == [];
    } else if pairs[0].name == name {
      var rest := Filter(pairs[1..], (p: Pair) => p.name != name);
      NoneLeft(pairs[1..], name);
      assert ([Pair(name, value)] + rest)[1..] == rest;
    } else {
      SetLeavesOne(pairs[1..], name, value);
      assert ([pairs[0]] + Set(pairs[1..], name, value))[1..] == Set(pairs[1..], name, value);
    }
  }

  /** The text can follow '#' and '?': it holds neither of them, nor white space, nor any character
      a browser would percent-encode inside a fragment. */
  lemma SerializedTextIsSafe(pairs: seq<Pair>)
    ensures Serialize(pairs) == "" <==> pairs == []
    ensures forall i :: 0 <= i < |Serialize(pairs)| ==> '$' < Serialize(pairs)[i] <= 'z' && Serialize(pairs)[i] !in "<>?`"
  {
    var bs := SerializeBytes(pairs);
    var text := Serialize(pairs);
    SerializedBytesAreSafe(pairs);
    forall i | 0 <= i < |text|
      ensures '$' < text[i] <= 'z' && text[i] !in "<>?`"
    {
      assert bs[i] in bs && IsQueryByte(bs[i]);
    }
  }

  predicate IsPlain(s: string) { forall i :: 0 <= i < |s| ==> s[i] as int < 0x80 && IsUnreserved(s[i] as int) }

  lemma {:induction false} PlainEncodesToItself(s: string)
    requires IsPlain(s)
    ensures |EncodeComponent(s)| == |s| && forall i :: 0 <= i < |s| ==> EncodeComponent(s)[i] == s[i] as int
  {
    if s != "" {
      var head := EncodeChar(s[0]);
      assert head == [s[0] as int] && Encode(s) == head + Encode(s[1..]);
      assert Encode(s)[1..] == Encode(s[1..]);
      PlainEncodesToItself(s[1..]);
    }
  }

  /** A name and a value that need no escape are written as they are. */
  lemma SerializePlainPair(name: string, value: string)
    requires IsPlain(name) && IsPlain(value)
    ensures Serialize([Pair(name, value)]) == name + "=" + value
  {
    PlainEncodesToItself(name);
    PlainEncodesToItself(value);
    var bs := SerializeBytes([Pair(name, value)]);
    assert bs == EncodeComponent(name) + [EQUALS] + EncodeComponent(value);
    SerializedIsAscii([Pair(name, value)]);
    assert AsciiText(bs) == name + "=" + value;
  }

  /** Parsing a serialized list gives exactly that list back, for arbitrary names and values. */
  lemma ParseSerialize(pairs: seq<Pair>)
    ensures Parse(Serialize(pairs)) == pairs
  {
    SerializedTextIsSafe(pairs);
    SerializedIsAscii(pairs);
    EncodeAscii(SerializeBytes(pairs));
    ParseSerializedBytes(pairs);
  }
}
