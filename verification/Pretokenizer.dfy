/** The pre-tokenizer shared by the Qwen and GLM byte-level tokenizers, against its rules as a
 *  regular expression would state them.
 */
module Pretokenizer {
  import opened Wrappers
  import opened Utf8

  /** Unicode classification is a parameter; letters and numbers may overlap. */
  datatype Classes = Classes(letter: char -> bool, number: char -> bool, whitespace: char -> bool)
  {
    ghost predicate Valid() {
      && whitespace(' ') && whitespace('\r') && whitespace('\n')
      && !letter('\r') && !letter('\n') && !number('\r') && !number('\n')
    }

    predicate Punctuation(c: char) { !whitespace(c) && !letter(c) && !number(c) }
  }

  predicate Newline(c: char) { c == '\r' || c == '\n' }

  function Lower(c: char): char {
    if 'A' <= c <= 'Z' then (c as int + 32) as char else c
  }

  // ---------- The rules ----------

  datatype Rule =
    | Contraction  // 's 't 'm 'd 're 've 'll, ignoring case
    | Letters      // one other character, unless a newline, letter or number, then letters
    | Digits       // one to three numbers
    | Punctuated   // one space, then punctuation, then newlines
    | Lines        // whitespace through newlines
    | Gap          // whitespace not followed by anything else
    | Blank        // whitespace

  predicate All(text: string, p: char -> bool, s: nat, e: nat) {
    s <= e <= |text| && forall i | s <= i < e :: p(text[i])
  }

  predicate ContractionAt(text: string, s: nat, e: nat)
    requires s < e <= |text|
  {
    text[s] == '\'' &&
    ((e == s + 3 && text[s + 1] in {'r', 'R', 'v', 'V'} && text[s + 2] in {'e', 'E'})
     || (e == s + 3 && text[s + 1] in {'l', 'L'} && text[s + 2] in {'l', 'L'})
     || (e == s + 2 && text[s + 1] in {'s', 'S', 't', 'T', 'm', 'M', 'd', 'D'}))
  }

  /** Line ends only. */
  ghost predicate LineEnds(text: string, s: nat, e: nat) {
    s <= e <= |text| && forall i: nat | s <= i < e :: text[i] == '\r' || text[i] == '\n'
  }

  /** Nothing that is whitespace, a letter or a number. */
  ghost predicate Marks(k: Classes, text: string, s: nat, e: nat) {
    s <= e <= |text| && forall i: nat | s <= i < e ::
      !k.whitespace(text[i]) && !k.letter(text[i]) && !k.number(text[i])
  }

  ghost predicate PunctuatedTo(k: Classes, text: string, s: nat, mid: nat, e: nat)
    requires s < |text|
  {
    && LineEnds(text, mid, e)
    && ((s < mid && Marks(k, text, s, mid)) || (text[s] == ' ' && s + 1 < mid && Marks(k, text, s + 1, mid)))
  }

  ghost predicate Matches(k: Classes, text: string, rule: Rule, s: nat, e: nat) {
    && s < e <= |text|
    && match rule
       case Contraction => ContractionAt(text, s, e)
       case Letters =>
         All(text, k.letter, s, e)
         || (!k.letter(text[s]) && text[s] != '\r' && text[s] != '\n' && !k.number(text[s]) && s + 1 < e
           && All(text, k.letter, s + 1, e))
       case Digits => e <= s + 3 && All(text, k.number, s, e)
       case Punctuated =>
         exists mid: nat :: PunctuatedTo(k, text, s, mid, e)
       case Lines => exists mid: nat :: mid < e && All(text, k.whitespace, s, mid) && LineEnds(text, mid, e)
       case Gap => All(text, k.whitespace, s, e) && (e < |text| ==> k.whitespace(text[e]))
       case Blank => All(text, k.whitespace, s, e)
  }

  /** The rule's greedy match. */
  ghost predicate Longest(k: Classes, text: string, rule: Rule, s: nat, e: nat) {
    Matches(k, text, rule, s, e) && forall further: nat | e < further :: !Matches(k, text, rule, s, further)
  }

  ghost predicate NoMatch(k: Classes, text: string, rule: Rule, s: nat) {
    forall e: nat :: !Matches(k, text, rule, s, e)
  }

  function Rank(rule: Rule): nat {
    match rule
    case Contraction => 0 case Letters => 1 case Digits => 2 case Punctuated => 3
    case Lines => 4 case Gap => 5 case Blank => 6
  }

  /** The greedy match of the first rule that matches at all. */
  ghost predicate Piece(k: Classes, text: string, s: nat, e: nat) {
    exists rule :: Longest(k, text, rule, s, e) && forall earlier | Rank(earlier) < Rank(rule) ::
      NoMatch(k, text, earlier, s)
  }

  /** The rules leave no choice: at most one piece starts at a place. */
  lemma PieceIsUnique(k: Classes, text: string, s: nat, e: nat, e': nat)
    requires Piece(k, text, s, e) && Piece(k, text, s, e')
    ensures e == e'
  {
    hide Matches;
    var rule :| Longest(k, text, rule, s, e)
                && forall earlier | Rank(earlier) < Rank(rule) :: NoMatch(k, text, earlier, s);
    var rule' :| Longest(k, text, rule', s, e')
                 && forall earlier | Rank(earlier) < Rank(rule') :: NoMatch(k, text, earlier, s);
    assert rule == rule';
  }

  // ---------- The branches ----------

  /** Advances over characters of one class. */
  method Skip(text: string, p: char -> bool, start: nat) returns (cursor: nat)
    requires start <= |text|
    ensures start <= cursor <= |text| && All(text, p, start, cursor)
    ensures cursor < |text| ==> !p(text[cursor])
  {
    cursor := start;
    while cursor < |text| && p(text[cursor])
      invariant start <= cursor <= |text| && All(text, p, start, cursor)
    {
      cursor := cursor + 1;
    }
  }

  method ContractionEnd(k: Classes, text: string, s: nat) returns (r: Option<nat>)
    requires s < |text|
    ensures r.Some? ==> Longest(k, text, Contraction, s, r.value)
    ensures r.None? ==> NoMatch(k, text, Contraction, s)
  {
    if text[s] == '\'' && s + 1 < |text| {
      var tail := Lower(text[s + 1]);
      if s + 2 < |text| {
        var pair := [tail, Lower(text[s + 2])];
        if pair == "re" || pair == "ve" || pair == "ll" { return Some(s + 3); }
      }
      if tail == 's' || tail == 't' || tail == 'm' || tail == 'd' {
        assert Matches(k, text, Contraction, s, s + 2);
        return Some(s + 2);
      }
    }
    return None;
  }

  method LettersEnd(k: Classes, text: string, s: nat) returns (r: Option<nat>)
    requires s < |text|
    ensures r.Some? ==> Longest(k, text, Letters, s, r.value)
    ensures r.None? ==> NoMatch(k, text, Letters, s)
  {
    var start := s;
    if !k.letter(text[s]) && !Newline(text[s]) && !k.number(text[s]) {
      if s + 1 < |text| && k.letter(text[s + 1]) {
        start := s + 1;
      } else {
        return None;
      }
    }
    if !k.letter(text[start]) { return None; }
    var cursor := Skip(text, k.letter, start);
    r := Some(cursor);
  }

  method DigitsEnd(k: Classes, text: string, s: nat) returns (r: Option<nat>)
    requires s < |text|
    ensures r.Some? ==> Longest(k, text, Digits, s, r.value)
    ensures r.None? ==> NoMatch(k, text, Digits, s)
  {
    if !k.number(text[s]) { return None; }
    var index := s + 1;
    while index < |text| && index - s < 3 && k.number(text[index])
      invariant s < index <= |text| && index <= s + 3 && All(text, k.number, s, index)
    {
      index := index + 1;
    }
    r := Some(index);
  }

  method PunctuatedEnd(k: Classes, text: string, s: nat) returns (r: Option<nat>)
    requires k.Valid() && s < |text|
    ensures r.Some? ==> Longest(k, text, Punctuated, s, r.value)
    ensures r.None? ==> NoMatch(k, text, Punctuated, s)
  {
    var start := s;
    if text[s] == ' ' && s + 1 < |text| && k.Punctuation(text[s + 1]) { start := s + 1; }
    if !k.Punctuation(text[start]) { return None; }
    var mid := Skip(text, k.Punctuation, start);
    var end := Skip(text, Newline, mid);
    assert PunctuatedTo(k, text, s, mid, end);
    r := Some(end);
  }

  lemma LinesEndInNewline(k: Classes, text: string, s: nat, e: nat)
    requires k.Valid()
    ensures Matches(k, text, Lines, s, e) ==>
      All(text, k.whitespace, s, e) && (text[e - 1] == '\r' || text[e - 1] == '\n')
  {
  }

  /** What no earlier rule takes is whitespace. */
  lemma OnlyWhitespaceLeft(k: Classes, text: string, s: nat)
    requires s < |text|
    requires NoMatch(k, text, Letters, s) && NoMatch(k, text, Digits, s) && NoMatch(k, text, Punctuated, s)
    ensures k.whitespace(text[s])
  {
    assert !Matches(k, text, Letters, s, s + 1);
    assert !Matches(k, text, Digits, s, s + 1);
    assert !Matches(k, text, Punctuated, s, s + 1);
    assert !PunctuatedTo(k, text, s, s + 1, s + 1);
  }

  /** The three whitespace rules share one scan. */
  method WhitespaceEnd(k: Classes, text: string, s: nat) returns (rule: Rule, e: nat)
    requires k.Valid() && s < |text| && k.whitespace(text[s])
    ensures Longest(k, text, rule, s, e) && rule in {Lines, Gap, Blank}
    ensures forall earlier | earlier in {Lines, Gap} && Rank(earlier) < Rank(rule) :: NoMatch(k, text, earlier, s)
  {
    var cursor := Skip(text, k.whitespace, s);
    var last := cursor;
    while last > s && !Newline(text[last - 1])
      invariant s <= last <= cursor && forall i | last <= i < cursor :: !Newline(text[i])
    {
      last := last - 1;
    }
    if last > s {
      assert All(text, k.whitespace, s, last - 1) && LineEnds(text, last - 1, last);
      assert Matches(k, text, Lines, s, last);
      forall e: nat | last < e ensures !Matches(k, text, Lines, s, e) { LinesEndInNewline(k, text, s, e); }
      return Lines, last;
    }
    forall e: nat ensures !Matches(k, text, Lines, s, e) { LinesEndInNewline(k, text, s, e); }
    if cursor == |text| {
      return Gap, cursor;
    }
    if cursor - 1 > s {
      return Gap, cursor - 1;
    }
    return Blank, cursor;
  }

  /** One step of the scan; the one-character fallback of the program is never reached. */
  method NextEnd(k: Classes, text: string, s: nat) returns (e: nat)
    requires k.Valid() && s < |text|
    ensures s < e <= |text| && Piece(k, text, s, e)
  {
    var contraction := ContractionEnd(k, text, s);
    if contraction.Some? { return contraction.value; }
    var letters := LettersEnd(k, text, s);
    if letters.Some? { return letters.value; }
    var digits := DigitsEnd(k, text, s);
    if digits.Some? { return digits.value; }
    var punctuated := PunctuatedEnd(k, text, s);
    if punctuated.Some? { return punctuated.value; }
    OnlyWhitespaceLeft(k, text, s);
    var rule, end := WhitespaceEnd(k, text, s);
    return end;
  }

  // ---------- The whole scan ----------

  /** Byte offset of a character position. */
  function Offset(text: string, i: nat): nat
    requires i <= |text|
  {
    |Encode(text[..i])|
  }

  function StartOf(ends: seq<nat>, i: nat): nat
    requires i < |ends|
  {
    if i == 0 then 0 else ends[i - 1]
  }

  ghost predicate PieceAt(k: Classes, text: string, ends: seq<nat>, i: nat)
    requires i < |ends|
  {
    StartOf(ends, i) < ends[i] <= |text| && Piece(k, text, StartOf(ends, i), ends[i])
  }

  /** Ranges from 0 to `length` without gaps; each is the greedy match of the first applicable rule. */
  ghost predicate Tokenized(k: Classes, text: string, ends: seq<nat>, length: nat) {
    && length == (if ends == [] then 0 else ends[|ends| - 1])
    && forall i | 0 <= i < |ends| :: PieceAt(k, text, ends, i)
  }

  lemma {:induction false} SplitsAgree(k: Classes, text: string, ends: seq<nat>, ends': seq<nat>, n: nat)
    requires Tokenized(k, text, ends, |text|) && Tokenized(k, text, ends', |text|) && n <= |ends|
    ensures n <= |ends'| && ends[..n] == ends'[..n]
  {
    hide Piece;
    if n > 0 {
      SplitsAgree(k, text, ends, ends', n - 1);
      assert PieceAt(k, text, ends, n - 1);
      if n <= |ends'| {
        assert PieceAt(k, text, ends', n - 1);
        PieceIsUnique(k, text, StartOf(ends, n - 1), ends[n - 1], ends'[n - 1]);
      }
    }
  }

  /** So a text is split in one way only. */
  lemma TokenizedIsUnique(k: Classes, text: string, ends: seq<nat>, ends': seq<nat>)
    requires Tokenized(k, text, ends, |text|) && Tokenized(k, text, ends', |text|)
    ensures ends == ends'
  {
    SplitsAgree(k, text, ends, ends', |ends|);
    SplitsAgree(k, text, ends', ends, |ends'|);
  }

  lemma TokenizedSnoc(k: Classes, text: string, ends: seq<nat>, index: nat, e: nat)
    requires Tokenized(k, text, ends, index) && index < e <= |text| && Piece(k, text, index, e)
    ensures Tokenized(k, text, ends + [e], e)
  {
    forall i | 0 <= i < |ends| + 1 ensures PieceAt(k, text, ends + [e], i) {
      if i < |ends| { assert PieceAt(k, text, ends, i); }
    }
  }

  function ByteRange(text: string, ends: seq<nat>, i: nat): (nat, nat)
    requires i < |ends| && StartOf(ends, i) <= |text| && ends[i] <= |text|
  {
    (Offset(text, StartOf(ends, i)), Offset(text, ends[i]))
  }

  ghost predicate RangeAt(text: string, ends: seq<nat>, ranges: seq<(nat, nat)>, i: nat)
    requires i < |ends| == |ranges|
  {
    StartOf(ends, i) <= |text| && ends[i] <= |text| && ranges[i] == ByteRange(text, ends, i)
  }

  ghost predicate ByteRanges(text: string, ends: seq<nat>, ranges: seq<(nat, nat)>) {
    |ranges| == |ends| && forall i: nat | i < |ends| :: RangeAt(text, ends, ranges, i)
  }

  lemma RangesSnoc(k: Classes, text: string, ends: seq<nat>, ranges: seq<(nat, nat)>, index: nat, e: nat)
    requires Tokenized(k, text, ends, index) && ByteRanges(text, ends, ranges) && index < e <= |text|
    ensures ByteRanges(text, ends + [e], ranges + [(Offset(text, index), Offset(text, e))])
  {
    hide Offset, Piece;
    var longer, more := ends + [e], ranges + [(Offset(text, index), Offset(text, e))];
    forall i: nat | i < |longer| ensures RangeAt(text, longer, more, i) {
      assert StartOf(longer, i) == if i < |ends| then StartOf(ends, i) else index;
      if i < |ends| { assert RangeAt(text, ends, ranges, i); }
    }
  }

  /** The ranges partition the text, each is the greedy match of the first applicable rule, and the
      result holds their byte offsets. */
  method PretokenRanges(k: Classes, text: string) returns (ranges: seq<(nat, nat)>, ends: seq<nat>)
    requires k.Valid()
    ensures Tokenized(k, text, ends, |text|)
    ensures ByteRanges(text, ends, ranges)
  {
    ranges, ends := [], [];
    var index := 0;
    assert Tokenized(k, text, ends, index) && ByteRanges(text, ends, ranges);
    hide Piece, Encode, Offset, Tokenized, ByteRanges;
    while index < |text|
      invariant index <= |text| && Tokenized(k, text, ends, index)
      invariant ByteRanges(text, ends, ranges)
      decreases |text| - index
    {
      var end := NextEnd(k, text, index);
      TokenizedSnoc(k, text, ends, index, end);
      RangesSnoc(k, text, ends, ranges, index, end);
      ranges := ranges + [(Offset(text, index), Offset(text, end))];
      ends := ends + [end];
      index := end;
    }
  }

  /** The bytes of a range are the encoding of its characters. */
  lemma RangeBytes(text: string, s: nat, e: nat)
    requires s <= e <= |text|
    ensures Offset(text, s) <= Offset(text, e) <= |Encode(text)|
    ensures Encode(text)[Offset(text, s)..Offset(text, e)] == Encode(text[s..e])
  {
    hide Encode;
    EncodeConcat(text[..s], text[s..e]);
    EncodeConcat(text[..e], text[e..]);
    assert text[..s] + text[s..e] == text[..e];
    assert text[..e] + text[e..] == text;
  }

  /** Concatenated, the pieces are the text: nothing is lost, repeated or reordered. */
  function Pieces(text: string, ends: seq<nat>, i: nat): string
    requires i <= |ends|
  {
    if i == 0 then ""
    else if StartOf(ends, i - 1) <= ends[i - 1] <= |text|
    then Pieces(text, ends, i - 1) + text[StartOf(ends, i - 1)..ends[i - 1]]
    else Pieces(text, ends, i - 1)
  }

  lemma {:induction false} PiecesArePrefix(k: Classes, text: string, ends: seq<nat>, i: nat)
    requires i <= |ends| && Tokenized(k, text, ends, |text|)
    ensures i == 0 || ends[i - 1] <= |text|
    ensures Pieces(text, ends, i) == if i == 0 then "" else text[..ends[i - 1]]
  {
    if i > 0 {
      PiecesArePrefix(k, text, ends, i - 1);
      assert PieceAt(k, text, ends, i - 1);
    }
  }
}
