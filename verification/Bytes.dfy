/**
 * Bytes, and ASCII text as bytes: encoding, and the decoding that drops each byte's top bit, as it is
 * used on the headers of messages.
 */
module Bytes {
  type Byte = b: int | 0 <= b < 256

  ghost predicate Ascii(s: string) {
    forall c :: c in s ==> c < 128 as char
  }

  function Code(c: char): Byte
    requires c < 128 as char
  {
    c as int
  }

  /** Text to bytes, for text that is ASCII. */
  function Encode(s: string): (bytes: seq<Byte>)
    requires Ascii(s)
    ensures |bytes| == |s|
  {
    seq(|s|, i requires 0 <= i < |s| => (assert s[i] in s; Code(s[i])))
  }

  /** Node's "ascii" decoding, which drops each byte's top bit. */
  function Decode(bytes: seq<Byte>): string {
    seq(|bytes|, i requires 0 <= i < |bytes| => (bytes[i] % 128) as char)
  }

  lemma DecodeEncode(s: string)
    requires Ascii(s)
    ensures Decode(Encode(s)) == s
  {
    forall i | 0 <= i < |s| ensures Decode(Encode(s))[i] == s[i] { assert s[i] in s; }
  }

  /** A byte with its top bit set is read as the one without it. */
  lemma TopBitDropped(b: Byte)
    requires b < 128
    ensures Decode([b]) == [b as char] && Decode([b + 128]) == Decode([b])
  {}

  lemma DecodeConcat(a: seq<Byte>, b: seq<Byte>)
    ensures Decode(a + b) == Decode(a) + Decode(b)
  {}
}
