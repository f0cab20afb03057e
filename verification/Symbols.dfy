/** The symbol lists both tokenizers merge: one symbol per character, and joining two neighbours. */
module Symbols {

  function Characters(text: string): seq<string> {
    seq(|text|, i requires 0 <= i < |text| => [text[i]])
  }

  function Flatten(symbols: seq<string>): string {
    if symbols == [] then [] else symbols[0] + Flatten(symbols[1..])
  }

  function MergeAt(symbols: seq<string>, k: nat): (r: seq<string>)
    requires k + 1 < |symbols|
    ensures |r| == |symbols| - 1
  {
    symbols[..k] + [symbols[k] + symbols[k + 1]] + symbols[k + 2..]
  }

  lemma {:induction false} FlattenMergeAt(symbols: seq<string>, k: nat)
    requires k + 1 < |symbols|
    ensures Flatten(MergeAt(symbols, k)) == Flatten(symbols)
  {
    var merged := MergeAt(symbols, k);
    if k == 0 {
      assert merged[1..] == symbols[2..] == symbols[1..][1..];
    } else {
      assert merged[1..] == MergeAt(symbols[1..], k - 1);
      FlattenMergeAt(symbols[1..], k - 1);
    }
  }

  lemma {:induction false} FlattenCharacters(s: string)
    ensures Flatten(Characters(s)) == s
  {
    if s != "" {
      assert Characters(s)[1..] == Characters(s[1..]);
      FlattenCharacters(s[1..]);
    }
  }
}
