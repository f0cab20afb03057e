/** UTF-8 as in section 3 of RFC 3629: encoding of Unicode scalar values. */
module Utf8 {
  import opened Wrappers

  type byte = x: int | 0 <= x < 256

  /** The encoding of one scalar value: one to four bytes. */
  function EncodeChar(c: char): (b: seq<byte>)
    ensures 1 <= |b| <= 4
  {
    var code := c as int;
    if code < 0x80 then [code]
    else if code < 0x800 then [0xC0 + code / 0x40, 0x80 + code % 0x40]
    else if code < 0x10000 then
      [0xE0 + code / 0x1000, 0x80 + code / 0x40 % 0x40, 0x80 + code % 0x40]
    else
      [0xF0 + code / 0x40000, 0x80 + code / 0x1000 % 0x40, 0x80 + code / 0x40 % 0x40, 0x80 + code % 0x40]
  }

  function Encode(s: string): seq<byte> {
    if s == [] then [] else EncodeChar(s[0]) + Encode(s[1..])
  }

  lemma {:induction false} EncodeConcat(s: string, t: string)
    ensures Encode(s + t) == Encode(s) + Encode(t)
  {
    hide EncodeChar;
    if s == [] {
      assert s + t == t;
    } else {
      EncodeConcat(s[1..], t);
      assert (s + t)[1..] == s[1..] + t;
    }
  }

  /** Byte lengths of a text's prefixes grow strictly with the prefix. */
  lemma ByteLengthGrows(text: string, start: nat, near: nat, far: nat)
    requires start <= near < far <= |text|
    ensures |Encode(text[start..near])| < |Encode(text[start..far])|
  {
    hide EncodeChar;
    var tail := text[near..far];
    assert text[start..far] == text[start..near] + tail;
    EncodeConcat(text[start..near], tail);
    assert |Encode(tail)| >= 1;
  }

  // ---------- Decoding ----------

  /** What a non-empty byte string starts with: a scalar value, a maximal malformed stretch that can
      be skipped, or a prefix of a scalar value cut off by the end of the string. */
  datatype Head = Scalar(c: char, size: nat) | Malformed(size: nat) | Truncated

  predicate Continuation(b: byte) { 0x80 <= b < 0xC0 }

  /** Which second bytes may follow a lead byte of three or four. */
  predicate SecondByte(lead: byte, b: byte) {
    if lead == 0xE0 then 0xA0 <= b < 0xC0
    else if lead == 0xED then 0x80 <= b < 0xA0
    else if lead == 0xF0 then 0x90 <= b < 0xC0
    else if lead == 0xF4 then 0x80 <= b < 0x90
    else Continuation(b)
  }

  /** A byte's payload below its marker bits. */
  function Bits(b: byte, marker: byte): int { b as int - marker as int }

  function First(b: seq<byte>): (r: Head)
    requires b != []
    ensures r.Scalar? || r.Malformed? ==> 1 <= r.size <= |b|
  {
    var lead := b[0];
    if lead < 0x80 then Scalar(lead as char, 1)
    else if lead < 0xC2 || lead >= 0xF5 then Malformed(1)
    else if lead < 0xE0 then
      if |b| < 2 then Truncated
      else if !Continuation(b[1]) then Malformed(1)
      else Scalar((Bits(lead, 0xC0) * 0x40 + Bits(b[1], 0x80)) as char, 2)
    else if |b| < 2 then Truncated
    else if !SecondByte(lead, b[1]) then Malformed(1)
    else if |b| < 3 then Truncated
    else if !Continuation(b[2]) then Malformed(2)
    else if lead < 0xF0 then
      Scalar((Bits(lead, 0xE0) * 0x1000 + Bits(b[1], 0x80) * 0x40 + Bits(b[2], 0x80)) as char, 3)
    else if |b| < 4 then Truncated
    else if !Continuation(b[3]) then Malformed(3)
    else Scalar(
      (Bits(lead, 0xF0) * 0x40000 + Bits(b[1], 0x80) * 0x1000 + Bits(b[2], 0x80) * 0x40 + Bits(b[3], 0x80)) as char, 4)
  }

  lemma ThreeBytes(c: char, rest: seq<byte>)
    requires 0x800 <= c as int < 0x10000
    ensures First(EncodeChar(c) + rest) == Scalar(c, 3)
  {
    var code := c as int;
    var b := EncodeChar(c) + rest;
    assert b[0] == 0xE0 + code / 0x1000 && b[1] == 0x80 + code / 0x40 % 0x40 && b[2] == 0x80 + code % 0x40;
    assert code / 0x40 / 0x40 == code / 0x1000;
    assert SecondByte(b[0], b[1]);
  }

  lemma FourBytes(c: char, rest: seq<byte>)
    requires 0x10000 <= c as int
    ensures First(EncodeChar(c) + rest) == Scalar(c, 4)
  {
    var code := c as int;
    var b := EncodeChar(c) + rest;
    assert b[0] == 0xF0 + code / 0x40000 && b[1] == 0x80 + code / 0x1000 % 0x40;
    assert b[2] == 0x80 + code / 0x40 % 0x40 && b[3] == 0x80 + code % 0x40;
    assert code / 0x40 / 0x40 == code / 0x1000 && code / 0x1000 / 0x40 == code / 0x40000;
    assert SecondByte(b[0], b[1]);
  }

  lemma FirstOfEncoded(c: char, rest: seq<byte>)
    ensures First(EncodeChar(c) + rest) == Scalar(c, |EncodeChar(c)|)
  {
    var code := c as int;
    if code < 0x80 {
    } else if code < 0x800 {
    } else if code < 0x10000 {
      ThreeBytes(c, rest);
    } else {
      FourBytes(c, rest);
    }
  }

  /** The length of the longest well-formed prefix. */
  function ValidUpTo(b: seq<byte>): (n: nat)
    ensures n <= |b|
  {
    if b == [] then 0
    else match First(b)
      case Scalar(_, size) => size + ValidUpTo(b[size..])
      case _ => 0
  }

  const REPLACEMENT: char := '\U{FFFD}'

  /** Lossy decoding: each maximal malformed stretch becomes one replacement character. */
  function Lossy(b: seq<byte>): string {
    if b == [] then []
    else match First(b)
      case Scalar(c, size) => [c] + Lossy(b[size..])
      case Malformed(size) => [REPLACEMENT] + Lossy(b[size..])
      case Truncated => [REPLACEMENT]
  }

  /** Decoding undoes encoding. */
  lemma {:induction false} LossyOfEncoded(s: string)
    ensures Lossy(Encode(s)) == s && ValidUpTo(Encode(s)) == |Encode(s)|
  {
    if s != [] {
      FirstOfEncoded(s[0], Encode(s[1..]));
      assert Encode(s)[|EncodeChar(s[0])|..] == Encode(s[1..]);
      LossyOfEncoded(s[1..]);
    }
  }

  lemma FirstOfExtended(b: seq<byte>, more: seq<byte>)
    requires b != [] && First(b).Scalar?
    ensures First(b + more) == First(b)
  {
  }

  /** Text up to a well-formed boundary decodes independently of what follows. */
  lemma {:induction false} LossyConcat(b: seq<byte>, more: seq<byte>)
    requires ValidUpTo(b) == |b|
    ensures Lossy(b + more) == Lossy(b) + Lossy(more)
  {
    if b == [] {
      assert b + more == more;
    } else {
      FirstOfExtended(b, more);
      var size := First(b).size;
      assert (b + more)[size..] == b[size..] + more;
      LossyConcat(b[size..], more);
    }
  }

  /** Continuation bytes at the start decode to one replacement each, so dropping them adds nothing. */
  lemma {:induction false} DropContinuations(b: seq<byte>, n: nat)
    requires n <= |b| && forall i: nat | i < n :: Continuation(b[i])
    ensures |Lossy(b[n..])| <= |Lossy(b)|
  {
    if n > 0 {
      DropContinuations(b[1..], n - 1);
      assert b[1..][n - 1..] == b[n..];
      assert First(b) == Malformed(1);
    } else {
      assert b[0..] == b;
    }
  }

  /** One byte in front of anything adds at most one character. */
  lemma OneByteMore(b: byte, rest: seq<byte>)
    ensures |Lossy([b] + rest)| <= 1 + |Lossy(rest)|
  {
    var all := [b] + rest;
    if !First(all).Truncated? {
      var size := First(all).size;
      assert all[size..] == rest[size - 1..];
      assert forall i: nat | i < size - 1 :: rest[i] == all[i + 1] && Continuation(all[i + 1]);
      DropContinuations(rest, size - 1);
    }
  }

  lemma {:induction false} ValidConcat(b: seq<byte>, more: seq<byte>)
    requires ValidUpTo(b) == |b|
    ensures ValidUpTo(b + more) == |b| + ValidUpTo(more)
  {
    if b == [] {
      assert b + more == more;
    } else {
      FirstOfExtended(b, more);
      var size := First(b).size;
      assert (b + more)[size..] == b[size..] + more;
      ValidConcat(b[size..], more);
    }
  }

  lemma FirstOfShortened(b: seq<byte>, n: nat)
    requires b != [] && First(b).Scalar? && First(b).size <= n <= |b|
    ensures First(b[..n]) == First(b)
  {
  }

  lemma {:induction false} ValidPrefix(b: seq<byte>)
    ensures ValidUpTo(b[..ValidUpTo(b)]) == ValidUpTo(b)
    ensures ValidUpTo(b[ValidUpTo(b)..]) == 0
  {
    hide First;
    if b != [] && First(b).Scalar? {
      var size, n := First(b).size, ValidUpTo(b);
      ValidPrefix(b[size..]);
      FirstOfShortened(b, n);
      assert b[..n][size..] == b[size..][..n - size];
      assert b[n..] == b[size..][n - size..];
    }
  }

  lemma FirstOfThree(b: seq<byte>)
    requires b != [] && First(b).Scalar? && 0xE0 <= b[0] < 0xF0
    ensures EncodeChar(First(b).c) == b[..3]
  {
    var x, y, z := Bits(b[0], 0xE0), Bits(b[1], 0x80), Bits(b[2], 0x80);
    var code := x * 0x1000 + y * 0x40 + z;
    assert First(b).c as int == code;
    assert code / 0x40 == x * 0x40 + y && code % 0x40 == z;
    assert code / 0x1000 == x && code / 0x40 % 0x40 == y;
    assert code >= 0x800;
  }

  lemma FirstOfFour(b: seq<byte>)
    requires b != [] && First(b).Scalar? && 0xF0 <= b[0]
    ensures EncodeChar(First(b).c) == b[..4]
  {
    var w, x, y, z := Bits(b[0], 0xF0), Bits(b[1], 0x80), Bits(b[2], 0x80), Bits(b[3], 0x80);
    var code := w * 0x40000 + x * 0x1000 + y * 0x40 + z;
    assert First(b).c as int == code;
    assert code % 0x40 == z && code / 0x40 == w * 0x1000 + x * 0x40 + y;
    assert code / 0x40 % 0x40 == y && code / 0x1000 == w * 0x40 + x;
    assert code / 0x1000 % 0x40 == x && code / 0x40000 == w;
    assert code >= 0x10000;
  }

  /** A well-formed first character is the encoding of its scalar value. */
  lemma FirstEncodes(b: seq<byte>)
    requires b != [] && First(b).Scalar?
    ensures EncodeChar(First(b).c) == b[..First(b).size]
  {
    var lead := b[0];
    if lead >= 0xF0 {
      FirstOfFour(b);
    } else if lead >= 0xE0 {
      FirstOfThree(b);
    }
  }

  /** Encoding undoes decoding of a well-formed byte string. */
  lemma {:induction false} EncodeOfLossy(b: seq<byte>)
    requires ValidUpTo(b) == |b|
    ensures Encode(Lossy(b)) == b
  {
    if b != [] {
      FirstEncodes(b);
      var size := First(b).size;
      EncodeOfLossy(b[size..]);
    }
  }

  /** The text whose encoding a byte string is, if it is one. */
  ghost function Decoded(b: seq<byte>): Option<string> {
    if s: string :| Encode(s) == b then Some(s) else None
  }

  /** A byte string is an encoding exactly when it is well-formed to its end, and of one text only. */
  lemma DecodedIffValid(b: seq<byte>)
    ensures Decoded(b) == if ValidUpTo(b) == |b| then Some(Lossy(b)) else None
  {
    if Decoded(b).Some? { LossyOfEncoded(Decoded(b).value); }
    if ValidUpTo(b) == |b| {
      EncodeOfLossy(b);
      assert Encode(Lossy(b)) == b;
    }
  }
}
