/** The GPT-2 bijection between bytes and printable characters. */
module ByteMap {
  import opened Wrappers
  import opened Utf8

  /** Bytes that stand for themselves. */
  predicate Direct(b: byte) {
    33 <= b <= 126 || 161 <= b <= 172 || 174 <= b <= 255
  }

  /** How many bytes below n do not stand for themselves. */
  function Extra(n: nat): (r: nat)
    requires n <= 256
    ensures r <= n
  {
    if n == 0 then 0 else Extra(n - 1) + (if Direct(n - 1) then 0 else 1)
  }

  function ByteToChar(b: byte): char {
    if Direct(b) then b as char else (256 + Extra(b)) as char
  }

  /** The table as the program builds it. */
  method ByteToUnicode() returns (mapped: seq<char>)
    ensures |mapped| == 256 && forall b: byte :: mapped[b] == ByteToChar(b)
  {
    mapped := [];
    var extra := 0;
    for b := 0 to 256
      invariant |mapped| == b && extra == Extra(b)
      invariant forall i: byte | i < b :: mapped[i] == ByteToChar(i)
    {
      if Direct(b) {
        mapped := mapped + [b as char];
      } else {
        mapped := mapped + [(256 + extra) as char];
        extra := extra + 1;
      }
    }
  }

  lemma {:induction false} ExtraIs(n: nat)
    requires n <= 256
    ensures Extra(n) == if n <= 33 then n else if n <= 127 then 33 else if n <= 161 then n - 94
                        else if n <= 173 then 67 else 68
  {
    if n > 0 { ExtraIs(n - 1); }
  }

  /** The whole table: three stretches stand for themselves, the others go from 256 to 323 in order. */
  lemma ByteTable(b: byte)
    ensures ByteToChar(b) as int
         == if b <= 32 then 256 + b else if b <= 126 then b else if b <= 160 then 162 + b
            else if b == 173 then 323 else b
  {
    ExtraIs(b);
  }

  lemma {:induction false} ExtraGrows(a: byte, b: byte)
    requires a < b
    ensures Extra(a) <= Extra(b) && (!Direct(a) ==> Extra(a) < Extra(b))
    decreases b
  {
    if a < b - 1 { ExtraGrows(a, b - 1); }
  }

  lemma Injective(a: byte, b: byte)
    requires ByteToChar(a) == ByteToChar(b)
    ensures a == b
  {
    if a < b { ExtraGrows(a, b); }
    if b < a { ExtraGrows(b, a); }
  }

  /** The inverse lookup; the table has one entry per byte. */
  function CharToByte(c: char, from: nat): (r: Option<byte>)
    requires from <= 256
    ensures r.Some? ==> from <= r.value && ByteToChar(r.value) == c
    ensures r.None? ==> forall b: byte | from <= b :: ByteToChar(b) != c
    decreases 256 - from
  {
    if from == 256 then None
    else if ByteToChar(from) == c then Some(from)
    else CharToByte(c, from + 1)
  }

  lemma Inverse(b: byte)
    ensures CharToByte(ByteToChar(b), 0) == Some(b)
  {
    Injective(CharToByte(ByteToChar(b), 0).value, b);
  }

  function MapBytes(bytes: seq<byte>): (s: string)
    ensures |s| == |bytes|
  {
    seq(|bytes|, i requires 0 <= i < |bytes| => ByteToChar(bytes[i]))
  }

  function UnmapChars(s: string): Option<seq<byte>> {
    if s == "" then Some([])
    else
      match (CharToByte(s[0], 0), UnmapChars(s[1..]))
      case (Some(b), Some(rest)) => Some([b] + rest)
      case _ => None
  }

  lemma {:induction false} UnmapUndoesMap(bytes: seq<byte>)
    ensures UnmapChars(MapBytes(bytes)) == Some(bytes)
  {
    if bytes != [] {
      Inverse(bytes[0]);
      assert MapBytes(bytes)[1..] == MapBytes(bytes[1..]);
      UnmapUndoesMap(bytes[1..]);
      assert MapBytes(bytes)[0] == ByteToChar(bytes[0]);
      assert bytes == [bytes[0]] + bytes[1..];
    }
  }

  predicate Ascii(s: string) { forall i | 0 <= i < |s| :: s[i] as int < 128 }

  predicate Visible(s: string) { forall i | 0 <= i < |s| :: 33 <= s[i] as int <= 126 }

  lemma {:induction false} AsciiText(bytes: seq<byte>, s: string)
    requires MapBytes(bytes) == s && Ascii(s)
    ensures bytes == Encode(s)
  {
    if s != "" {
      assert s[0] == ByteToChar(bytes[0]);
      assert MapBytes(bytes[1..]) == s[1..];
      AsciiText(bytes[1..], s[1..]);
    }
  }

  lemma {:induction false} UnmapLength(s: string)
    ensures UnmapChars(s).Some? ==> |UnmapChars(s).value| == |s|
    ensures |Encode(s)| >= |s|
    ensures !Ascii(s) ==> |Encode(s)| > |s|
  {
    if s != "" {
      UnmapLength(s[1..]);
      assert s == [s[0]] + s[1..];
    }
  }

  /** Reading a text through the byte table gives back its own encoding exactly when every
      character is visible ASCII. */
  lemma {:induction false} UnmapIsEncodeIffVisible(s: string)
    ensures UnmapChars(s) == Some(Encode(s)) <==> Visible(s)
  {
    UnmapLength(s);
    if s != "" && Ascii(s) {
      UnmapIsEncodeIffVisible(s[1..]);
      if 33 <= s[0] as int <= 126 {
        Inverse(s[0] as int);
        assert Encode(s)[1..] == Encode(s[1..]);
        assert Visible(s) <==> Visible(s[1..]) by {
          assert forall i | 1 <= i < |s| :: s[i] == s[1..][i - 1];
        }
      }
    }
  }
}
