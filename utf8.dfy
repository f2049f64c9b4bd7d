/**
 * UTF-8 encoding of a string, the bytes `value.encode("utf-8")` hands to the
 * hash. A decoder is given beside it so that the encoding can be shown to
 * lose nothing: different strings give different byte sequences.
 */
module Utf8 {
  import opened Wrappers

  type Byte = b: int | 0 <= b < 0x100

  /** A Unicode scalar value: a code point that is not a surrogate. */
  predicate IsScalarValue(n: int)
  {
    (0 <= n < 0xD800) || (0xE000 <= n < 0x11_0000)
  }

  /** The one- to four-byte encoding of a single character. */
  function EncodeChar(c: char): (r: seq<Byte>)
    ensures 1 <= |r| <= 4
  {
    var n := c as int;
    if n < 0x80 then [n]
    else if n < 0x800 then [0xC0 + n / 64, 0x80 + n % 64]
    else if n < 0x1_0000 then [0xE0 + n / 4096, 0x80 + (n / 64) % 64, 0x80 + n % 64]
    else [0xF0 + n / 262144, 0x80 + (n / 4096) % 64, 0x80 + (n / 64) % 64, 0x80 + n % 64]
  }

  /** `s.encode("utf-8")`. */
  function Encode(s: string): seq<Byte>
  {
    if s == [] then [] else EncodeChar(s[0]) + Encode(s[1..])
  }

  /** The length of a sequence that starts with `lead`, or 0 when `lead` cannot start one. */
  function SequenceLength(lead: Byte): nat
  {
    if lead < 0x80 then 1
    else if 0xC0 <= lead < 0xE0 then 2
    else if 0xE0 <= lead < 0xF0 then 3
    else if 0xF0 <= lead < 0xF8 then 4
    else 0
  }

  predicate IsContinuation(b: Byte)
  {
    0x80 <= b < 0xC0
  }

  /** The code point that a one- to four-byte sequence spells out. */
  function CodePoint(bs: seq<Byte>): int
    requires 1 <= |bs| <= 4
  {
    var b0, b1, b2, b3 := bs[0] as int, Cont(bs, 1), Cont(bs, 2), Cont(bs, 3);
    if |bs| == 1 then b0
    else if |bs| == 2 then (b0 - 0xC0) * 64 + b1
    else if |bs| == 3 then (b0 - 0xE0) * 4096 + b1 * 64 + b2
    else (b0 - 0xF0) * 262144 + b1 * 4096 + b2 * 64 + b3
  }

  /** The six payload bits of the continuation byte at index `k`, if there is one. */
  function Cont(bs: seq<Byte>, k: nat): int
  {
    if k < |bs| then bs[k] as int - 0x80 else 0
  }

  /** Decodes a byte sequence; `None` when it is not a sequence of encoded scalar values. */
  function Decode(bs: seq<Byte>): Option<string>
    decreases |bs|
  {
    if bs == [] then Some([])
    else
      var n := SequenceLength(bs[0]);
      if n == 0 || |bs| < n then None
      else if exists k :: 1 <= k < n && !IsContinuation(bs[k]) then None
      else
        var v := CodePoint(bs[..n]);
        if !IsScalarValue(v) then None
        else
          match Decode(bs[n..])
          case None => None
          case Some(rest) => Some([v as char] + rest)
  }

  /** One encoded character is read back from the front of any byte sequence. */
  lemma DecodeChar(c: char)
    ensures var e := EncodeChar(c);
      && SequenceLength(e[0]) == |e|
      && (forall k :: 1 <= k < |e| ==> IsContinuation(e[k]))
      && CodePoint(e) == c as int
  {
    var n := c as int;
    assert n == (n / 64) * 64 + n % 64;
    assert n / 64 == (n / 4096) * 64 + (n / 64) % 64;
    assert n / 4096 == (n / 262144) * 64 + (n / 4096) % 64;
  }

  /** Decoding undoes encoding. */
  lemma {:induction false} DecodeEncode(s: string)
    ensures Decode(Encode(s)) == Some(s)
  {
    if s != [] {
      var e := EncodeChar(s[0]);
      var bs := Encode(s);
      assert bs == e + Encode(s[1..]);
      DecodeChar(s[0]);
      assert bs[..|e|] == e;
      assert bs[|e|..] == Encode(s[1..]);
      DecodeEncode(s[1..]);
      assert IsScalarValue(s[0] as int);
      assert (s[0] as int) as char == s[0];
      assert [s[0]] + s[1..] == s;
    }
  }

  /** Different strings have different encodings, so the hash input determines the string. */
  lemma EncodeInjective(s: string, t: string)
    requires Encode(s) == Encode(t)
    ensures s == t
  {
    DecodeEncode(s);
    DecodeEncode(t);
  }
}
